/** What a client gets from subscribing, told from the actions alone: from when to when it is served, with which
    snapshot and which chunks, and what becomes of a subscription that failed or ended. */
module Subscriptions {
  import opened Bytes
  import opened VtTokens
  import opened Dispatcher
  import S = QueryStripper
  import R = Recording

  predicate Subscribes(a: Action) {
    a.Subscribe? || a.SubscribeSnapshot? || a.SubscribeSkipped?
  }

  /** How many subscriptions were asked for; the next one gets this number. */
  function Asked(actions: seq<Action>): nat {
    if actions == [] then 0 else Asked(Front(actions)) + if Subscribes(Last(actions)) then 1 else 0
  }

  lemma NumberStep(f: Strip, s: State, a: Action)
    requires Wired(s)
    ensures Step(f, s, a).next == s.next + if Subscribes(a) then 1 else 0
  {
  }

  lemma {:induction false} NumberedInTurn(f: Strip, rec: Option<R.State>, actions: seq<Action>)
    ensures Exec(f, rec, actions).next == Asked(actions)
  {
    if actions != [] {
      NumberedInTurn(f, rec, Front(actions));
      NumberStep(f, Exec(f, rec, Front(actions)), Last(actions));
    }
  }

  /** Nothing ends this subscription. */
  ghost predicate Undisturbed(actions: seq<Action>, id: ChanId) {
    forall i | 0 <= i < |actions| :: !actions[i].Teardown? && actions[i] != Cancel(id)
  }

  lemma UndisturbedFront(actions: seq<Action>, id: ChanId)
    requires actions != [] && Undisturbed(actions, id)
    ensures Undisturbed(Front(actions), id) && !Last(actions).Teardown? && Last(actions) != Cancel(id)
  {
    assert forall i | 0 <= i < |actions| - 1 :: Front(actions)[i] == actions[i];
  }

  // ---------------------------------------------------------------- a subscription that lives

  /** Registered and open, with this capacity and snapshot, having been through exactly these chunks; and no
      chunk was lost while there were no more than the channel holds. */
  ghost predicate Serves(s: State, id: ChanId, cap: nat, snapshot: Option<seq<seq<byte>>>, raw: seq<seq<byte>>)
    requires Wired(s)
  {
    && id in s.subs && !s.chans[id].closed && s.chans[id].cap == cap
    && s.hist[id].snapshot == snapshot && s.hist[id].raw == raw
    && |s.chans[id].sent| <= |raw| && (|raw| <= cap ==> !s.hist[id].lost)
  }

  /** A chunk is fanned out from a state in which only recorder, emulator and mirror have changed. */
  lemma ChunkTees(f: Strip, s: State, data: seq<byte>, now: u64) returns (teed: State)
    requires Wired(s)
    ensures Wired(teed) && Teed(s, teed, data) && Step(f, s, Chunk(data, now)) == FanOut(f, teed, data)
  {
    teed := Tee(s, data, now);
  }

  lemma ServesChunk(
    f: Strip, s: State, teed: State, data: seq<byte>, id: ChanId, cap: nat, snapshot: Option<seq<seq<byte>>>,
    raw: seq<seq<byte>>)
    requires Wired(s) && Wired(teed) && Teed(s, teed, data) && Serves(s, id, cap, snapshot, raw)
    ensures Serves(FanOut(f, teed, data), id, cap, snapshot, raw + [data])
  {
  }

  lemma ServesQuiet(
    f: Strip, s: State, a: Action, id: ChanId, cap: nat, snapshot: Option<seq<seq<byte>>>, raw: seq<seq<byte>>)
    requires Wired(s) && Serves(s, id, cap, snapshot, raw) && !a.Chunk? && !a.Teardown? && a != Cancel(id)
    ensures Serves(Step(f, s, a), id, cap, snapshot, raw)
  {
  }

  lemma ServesOn(
    f: Strip, s: State, a: Action, id: ChanId, cap: nat, snapshot: Option<seq<seq<byte>>>, raw: seq<seq<byte>>)
    requires Wired(s) && Serves(s, id, cap, snapshot, raw) && !a.Teardown? && a != Cancel(id)
    ensures Serves(Step(f, s, a), id, cap, snapshot, if a.Chunk? then raw + [a.data] else raw)
  {
    if a.Chunk? {
      var teed := ChunkTees(f, s, a.data, a.now);
      ServesChunk(f, s, teed, a.data, id, cap, snapshot, raw);
    } else {
      ServesQuiet(f, s, a, id, cap, snapshot, raw);
    }
  }

  lemma {:induction false} ServedAfter(
    f: Strip, rec: Option<R.State>, made: seq<Action>, after: seq<Action>,
    id: ChanId, cap: nat, snapshot: Option<seq<seq<byte>>>)
    requires Serves(Exec(f, rec, made), id, cap, snapshot, []) && Undisturbed(after, id)
    ensures Serves(Exec(f, rec, made + after), id, cap, snapshot, Fed(after))
    decreases |after|
  {
    if after == [] {
      assert made + after == made;
    } else {
      UndisturbedFront(after, id);
      ServedAfter(f, rec, made, Front(after), id, cap, snapshot);
      assert Front(made + after) == made + Front(after) && Last(made + after) == Last(after);
      ServesOn(f, Exec(f, rec, made + Front(after)), Last(after), id, cap, snapshot, Fed(Front(after)));
    }
  }

  lemma JoinServes(f: Strip, s: State, history: seq<seq<byte>>)
    requires Wired(s) && s.term == Some(history)
    ensures Serves(Step(f, s, SubscribeSnapshot(true)), s.next, 256, Some(history), [])
  {
  }

  lemma PlainServes(f: Strip, s: State, cap: nat)
    requires Wired(s)
    ensures Serves(Step(f, s, Subscribe(cap)), s.next, cap, None, [])
  {
  }

  /** A successful snapshot subscription is served until it is cancelled or all is torn down: its snapshot is
      everything the emulator was fed before it, and its chunks are exactly those since. */
  lemma {:induction false} SnapshotLives(f: Strip, rec: Option<R.State>, before: seq<Action>, after: seq<Action>)
    requires Live(before) && Undisturbed(after, Asked(before))
    ensures Serves(
      Exec(f, rec, before + [SubscribeSnapshot(true)] + after), Asked(before), 256, Some(Fed(before)), Fed(after))
  {
    var made := before + [SubscribeSnapshot(true)];
    NumberedInTurn(f, rec, before);
    EmulatorTracks(f, rec, before);
    assert Front(made) == before && Last(made) == SubscribeSnapshot(true);
    JoinServes(f, Exec(f, rec, before), Fed(before));
    ServedAfter(f, rec, made, after, Asked(before), 256, Some(Fed(before)));
  }

  /** So is a plain one, at any time, without a snapshot. */
  lemma {:induction false} PlainLives(
    f: Strip, rec: Option<R.State>, before: seq<Action>, cap: nat, after: seq<Action>)
    requires Undisturbed(after, Asked(before))
    ensures Serves(Exec(f, rec, before + [Subscribe(cap)] + after), Asked(before), cap, None, Fed(after))
  {
    var made := before + [Subscribe(cap)];
    NumberedInTurn(f, rec, before);
    assert Front(made) == before && Last(made) == Subscribe(cap);
    PlainServes(f, Exec(f, rec, before), cap);
    ServedAfter(f, rec, made, after, Asked(before), cap, None);
  }

  // ---------------------------------------------------------------- what is delivered

  /** The channel had room whenever a chunk came. */
  ghost predicate KeptUp(f: Strip, rec: Option<R.State>, actions: seq<Action>, id: ChanId) {
    forall k | 0 <= k < |actions| && actions[k].Chunk? :: HasRoom(Exec(f, rec, actions[..k]), id)
  }

  ghost predicate HasRoom(s: State, id: ChanId) {
    id in s.chans ==> |s.chans[id].sent| - s.chans[id].received < s.chans[id].cap
  }

  lemma RoomKeeps(f: Strip, s: State, a: Action, id: ChanId)
    requires Wired(s) && (id in s.hist ==> !s.hist[id].lost) && (a.Chunk? ==> HasRoom(s, id))
    ensures id in Step(f, s, a).hist ==> !Step(f, s, a).hist[id].lost
  {
  }

  /** Nothing is lost by a client that keeps up. */
  lemma {:induction false} NothingLost(f: Strip, rec: Option<R.State>, actions: seq<Action>, id: ChanId)
    requires KeptUp(f, rec, actions, id)
    ensures id in Exec(f, rec, actions).hist ==> !Exec(f, rec, actions).hist[id].lost
  {
    if actions != [] {
      var front := Front(actions);
      assert forall k | 0 <= k < |front| :: front[k] == actions[k] && front[..k] == actions[..k];
      assert actions[..|front|] == front;
      NothingLost(f, rec, front, id);
      RoomKeeps(f, Exec(f, rec, front), Last(actions), id);
    }
  }

  lemma {:induction false} FedAppend(a: seq<Action>, b: seq<Action>)
    ensures Fed(a + b) == Fed(a) + Fed(b)
    decreases |b|
  {
    if b == [] {
      assert a + b == a;
    } else {
      assert Front(a + b) == a + Front(b) && Last(a + b) == Last(b);
      FedAppend(a, Front(b));
    }
  }

  lemma {:induction false} FedAround(before: seq<Action>, after: seq<Action>)
    ensures Fed(before + [SubscribeSnapshot(true)] + after) == Fed(before) + Fed(after)
  {
    var made := before + [SubscribeSnapshot(true)];
    assert Front(made) == before && Last(made) == SubscribeSnapshot(true);
    FedAppend(made, after);
  }

  /** What was sent falls short of what is owed exactly if something was lost. */
  ghost predicate Accounted(f: Strip, s: State, id: ChanId)
    requires Wired(s) && id in s.chans
  {
    var sent, owed := |s.chans[id].sent|, |Passed(f, s.hist[id].raw)|;
    sent <= owed && (s.hist[id].lost ==> sent < owed)
  }

  lemma PassedOne(f: Strip, raw: seq<seq<byte>>, data: seq<byte>)
    ensures Passed(f, raw + [data]) == Owe(Passed(f, raw), f(f(GROUND, Concat(raw)).st, data).out)
  {
    assert Front(raw + [data]) == raw;
  }

  lemma AccountsChunk(f: Strip, s: State, teed: State, data: seq<byte>, id: ChanId)
    requires Wired(s) && Wired(teed) && Teed(s, teed, data) && id in s.chans && SubOk(f, s, id) && Accounted(f, s, id)
    ensures Accounted(f, FanOut(f, teed, data), id)
  {
    PassedOne(f, s.hist[id].raw, data);
  }

  /** Only a chunk changes what a known subscription has been through and was sent; a new one has nothing. */
  lemma SameAccount(f: Strip, s: State, a: Action, id: ChanId)
    requires Wired(s) && !a.Chunk? && id in Step(f, s, a).chans
    ensures var s' := Step(f, s, a);
      if id in s.chans
      then s'.chans[id].sent == s.chans[id].sent && s'.hist[id].raw == s.hist[id].raw && s'.hist[id].lost == s.hist[id].lost
      else s'.chans[id].sent == [] && s'.hist[id].raw == [] && !s'.hist[id].lost
  {
  }

  lemma AccountsQuiet(f: Strip, s: State, a: Action, id: ChanId)
    requires Wired(s) && !a.Chunk? && id in Step(f, s, a).chans && (id in s.chans ==> Accounted(f, s, id))
    ensures Accounted(f, Step(f, s, a), id)
  {
    SameAccount(f, s, a, id);
  }

  lemma AccountsStep(f: Strip, s: State, a: Action, id: ChanId)
    requires Wired(s) && (id in s.chans ==> SubOk(f, s, id) && Accounted(f, s, id))
    ensures id in Step(f, s, a).chans ==> Accounted(f, Step(f, s, a), id)
  {
    if a.Chunk? {
      var teed := ChunkTees(f, s, a.data, a.now);
      if id in s.chans {
        AccountsChunk(f, s, teed, a.data, id);
      }
    } else if id in Step(f, s, a).chans {
      AccountsQuiet(f, s, a, id);
    }
  }

  lemma SubsOk(f: Strip, s: State, id: ChanId)
    requires Inv(f, s)
    ensures id in s.chans ==> SubOk(f, s, id)
  {
    if id in s.chans {
      assert ChanOk(f, s, id);
    }
  }

  lemma {:induction false} AllAccounted(f: Strip, rec: Option<R.State>, actions: seq<Action>, id: ChanId)
    requires Streaming(f)
    ensures id in Exec(f, rec, actions).chans ==> Accounted(f, Exec(f, rec, actions), id)
  {
    if actions != [] {
      AllAccounted(f, rec, Front(actions), id);
      ExecKeeps(f, rec, Front(actions));
      SubsOk(f, Exec(f, rec, Front(actions)), id);
      AccountsStep(f, Exec(f, rec, Front(actions)), Last(actions), id);
    }
  }

  lemma {:induction false} LossIff(f: Strip, s: State, id: ChanId)
    requires Inv(f, s) && id in s.chans && Accounted(f, s, id)
    ensures s.hist[id].lost <==> s.chans[id].sent != Passed(f, s.hist[id].raw)
  {
    assert ChanOk(f, s, id);
  }

  /** After any run, a subscriber has lost something if and only if it was sent anything other than every
      non-empty output of a fresh stripper over its chunks. */
  lemma {:induction false} LostIffShort(rec: Option<R.State>, actions: seq<Action>, id: ChanId)
    requires id in Exec(S.Run, rec, actions).chans
    ensures var s := Exec(S.Run, rec, actions);
      s.hist[id].lost <==> s.chans[id].sent != Passed(S.Run, s.hist[id].raw)
  {
    StripperStreams();
    ReachableSafe(rec, actions);
    AllAccounted(S.Run, rec, actions, id);
    LossIff(S.Run, Exec(S.Run, rec, actions), id);
  }

  lemma {:induction false} OneRunDelivered(f: Strip, s: State, id: ChanId)
    requires Streaming(f) && Inv(f, s) && id in s.chans && !s.hist[id].lost
    ensures Concat(s.chans[id].sent) == f(GROUND, Concat(s.hist[id].raw)).out
  {
    assert ChanOk(f, s, id);
    PassedIsOneRun(f, s.hist[id].raw);
  }

  lemma {:induction false} HistoryAround(f: Strip, rec: Option<R.State>, before: seq<Action>, after: seq<Action>)
    requires Live(before) && Live(after)
    ensures Exec(f, rec, before + [SubscribeSnapshot(true)] + after).term == Some(Fed(before) + Fed(after))
  {
    FedAround(before, after);
    EmulatorTracks(f, rec, before + [SubscribeSnapshot(true)] + after);
  }

  lemma {:induction false} SentIsStripped(rec: Option<R.State>, actions: seq<Action>, id: ChanId, raw: seq<seq<byte>>)
    requires var s := Exec(S.Run, rec, actions); id in s.chans && !s.hist[id].lost && s.hist[id].raw == raw
    ensures Concat(Exec(S.Run, rec, actions).chans[id].sent) == S.RenderAll(Tokens(Concat(raw), true))
  {
    StripperStreams();
    ReachableSafe(rec, actions);
    OneRunDelivered(S.Run, Exec(S.Run, rec, actions), id);
    StripperMeans(Concat(raw));
  }

  lemma StripperMeans(raw: seq<byte>)
    ensures S.Run(GROUND, raw).out == S.RenderAll(Tokens(raw, true))
  {
    LexRefines(raw, true);
  }

  /** A client that subscribes with a snapshot and keeps up, or gets at most 256 chunks: its snapshot and the
      chunks since are the emulator's whole history, and what it is sent is the bytes of those chunks with ENQs
      and queries removed. */
  lemma {:induction false} ClientSeesEverything(rec: Option<R.State>, before: seq<Action>, after: seq<Action>)
    requires Live(before) && Undisturbed(after, Asked(before))
    requires |Fed(after)| <= 256 || KeptUp(S.Run, rec, before + [SubscribeSnapshot(true)] + after, Asked(before))
    ensures var s, id := Exec(S.Run, rec, before + [SubscribeSnapshot(true)] + after), Asked(before);
      && id in s.subs && s.hist[id].snapshot == Some(Fed(before))
      && s.term == Some(Fed(before) + Fed(after))
      && Concat(s.chans[id].sent) == S.RenderAll(Tokens(Concat(Fed(after)), true))
  {
    var all, id := before + [SubscribeSnapshot(true)] + after, Asked(before);
    SnapshotLives(S.Run, rec, before, after);
    if |Fed(after)| > 256 {
      NothingLost(S.Run, rec, all, id);
    }
    SentIsStripped(rec, all, id, Fed(after));
    HistoryAround(S.Run, rec, before, after);
  }

  // ---------------------------------------------------------------- a subscription that ended

  /** Closed for good, not served, nothing more sent. */
  ghost predicate Gone(s: State, id: ChanId, sent: seq<seq<byte>>) {
    id in s.chans && id !in s.subs && s.chans[id].closed && s.chans[id].sent == sent
  }

  lemma GoneStays(f: Strip, s: State, a: Action, id: ChanId, sent: seq<seq<byte>>)
    requires Wired(s) && Gone(s, id, sent)
    ensures Gone(Step(f, s, a), id, sent)
  {
  }

  lemma {:induction false} GoneAfter(
    f: Strip, rec: Option<R.State>, ended: seq<Action>, after: seq<Action>, id: ChanId, sent: seq<seq<byte>>)
    requires Gone(Exec(f, rec, ended), id, sent)
    ensures Gone(Exec(f, rec, ended + after), id, sent)
    decreases |after|
  {
    if after == [] {
      assert ended + after == ended;
    } else {
      assert Front(ended + after) == ended + Front(after) && Last(ended + after) == Last(after);
      GoneAfter(f, rec, ended, Front(after), id, sent);
      GoneStays(f, Exec(f, rec, ended + Front(after)), Last(after), id, sent);
    }
  }

  lemma EndsOne(f: Strip, s: State, a: Action, id: ChanId)
    requires Wired(s) && id in s.subs && (a == Cancel(id) || a.Teardown?)
    ensures Gone(Step(f, s, a), id, s.chans[id].sent)
  {
  }

  /** Cancelling, and tearing down, close a subscription for good. */
  lemma {:induction false} EndedStays(
    f: Strip, rec: Option<R.State>, before: seq<Action>, a: Action, after: seq<Action>, id: ChanId)
    requires id in Exec(f, rec, before).subs && (a == Cancel(id) || a.Teardown?)
    ensures Gone(Exec(f, rec, before + [a] + after), id, Exec(f, rec, before).chans[id].sent)
  {
    var ended := before + [a];
    assert Front(ended) == before && Last(ended) == a;
    EndsOne(f, Exec(f, rec, before), a, id);
    GoneAfter(f, rec, ended, after, id, Exec(f, rec, before).chans[id].sent);
  }

  lemma FailsOne(f: Strip, s: State)
    requires Wired(s) && s.term.Some?
    ensures Gone(Step(f, s, SubscribeSnapshot(false)), s.next, [])
  {
  }

  /** A failed snapshot leaves a closed channel that is never served. */
  lemma {:induction false} FailedStays(f: Strip, rec: Option<R.State>, before: seq<Action>, after: seq<Action>)
    requires Live(before)
    ensures Gone(Exec(f, rec, before + [SubscribeSnapshot(false)] + after), Asked(before), [])
  {
    var ended := before + [SubscribeSnapshot(false)];
    assert Front(ended) == before && Last(ended) == SubscribeSnapshot(false);
    NumberedInTurn(f, rec, before);
    EmulatorTracks(f, rec, before);
    FailsOne(f, Exec(f, rec, before));
    GoneAfter(f, rec, ended, after, Asked(before), []);
  }

  /** Known and never served, whether or not it was closed. */
  ghost predicate Unserved(s: State, id: ChanId, closed: bool) {
    id in s.chans && id !in s.subs && s.chans[id].closed == closed && s.chans[id].sent == []
  }

  lemma UnservedStays(f: Strip, s: State, a: Action, id: ChanId, closed: bool)
    requires Wired(s) && Unserved(s, id, closed)
    ensures Unserved(Step(f, s, a), id, closed)
  {
  }

  lemma {:induction false} UnservedAfter(
    f: Strip, rec: Option<R.State>, made: seq<Action>, after: seq<Action>, id: ChanId, closed: bool)
    requires Unserved(Exec(f, rec, made), id, closed)
    ensures Unserved(Exec(f, rec, made + after), id, closed)
    decreases |after|
  {
    if after == [] {
      assert made + after == made;
    } else {
      assert Front(made + after) == made + Front(after) && Last(made + after) == Last(after);
      UnservedAfter(f, rec, made, Front(after), id, closed);
      UnservedStays(f, Exec(f, rec, made + Front(after)), Last(after), id, closed);
    }
  }

  lemma SkipsOne(f: Strip, s: State, cap: nat, closes: bool)
    requires Wired(s)
    ensures Unserved(Step(f, s, SubscribeSkipped(cap, closes)), s.next, closes)
  {
  }

  /** An action that never ran registers nothing; its caller closes the channel or leaves it open. */
  lemma {:induction false} SkippedStays(
    f: Strip, rec: Option<R.State>, before: seq<Action>, cap: nat, closes: bool, after: seq<Action>)
    ensures Unserved(Exec(f, rec, before + [SubscribeSkipped(cap, closes)] + after), Asked(before), closes)
  {
    var made := before + [SubscribeSkipped(cap, closes)];
    assert Front(made) == before && Last(made) == SubscribeSkipped(cap, closes);
    NumberedInTurn(f, rec, before);
    SkipsOne(f, Exec(f, rec, before), cap, closes);
    UnservedAfter(f, rec, made, after, Asked(before), closes);
  }

  lemma {:induction false} DownAfter(f: Strip, rec: Option<R.State>, actions: seq<Action>)
    requires !Live(actions)
    ensures Exec(f, rec, actions).term == None && Exec(f, rec, actions).primary == None
  {
    if !Last(actions).Teardown? {
      var i :| 0 <= i < |actions| && actions[i].Teardown?;
      assert Front(actions)[i].Teardown?;
      DownAfter(f, rec, Front(actions));
    }
  }

  lemma LateOne(f: Strip, s: State, ok: bool)
    requires Wired(s) && s.term.None?
    ensures Unserved(Step(f, s, SubscribeSnapshot(ok)), s.next, false)
  {
  }

  /** After teardown a snapshot subscription registers nothing. */
  lemma {:induction false} LateStays(
    f: Strip, rec: Option<R.State>, before: seq<Action>, ok: bool, after: seq<Action>)
    requires !Live(before)
    ensures Unserved(Exec(f, rec, before + [SubscribeSnapshot(ok)] + after), Asked(before), false)
  {
    var made := before + [SubscribeSnapshot(ok)];
    assert Front(made) == before && Last(made) == SubscribeSnapshot(ok);
    NumberedInTurn(f, rec, before);
    DownAfter(f, rec, before);
    LateOne(f, Exec(f, rec, before), ok);
    UnservedAfter(f, rec, made, after, Asked(before), false);
  }
}

/** The min-wins window-size negotiator over all attached clients. */
module AttachSizes {
  import opened Bytes

  type ConnId = nat

  datatype Winsize = Winsize(cols: u16, rows: u16)

  const ZERO: Winsize := Winsize(0, 0)

  /** Members' declared sizes, the effective size, and the two effects: the size last pushed to the PTY, and
      the size each member was last told (by a size frame, or as the result of its own Add). */
  datatype State = State(
    members: map<ConnId, Winsize>,
    current: Winsize,
    nextID: nat,
    applied: Option<Winsize>,
    told: map<ConnId, Winsize>)

  datatype Op = Add(c: ConnId, ws: Winsize) | Update(c: ConnId, ws: Winsize) | Remove(c: ConnId)

  const INITIAL: State := State(map[], ZERO, 0, None, map[])

  // ---------------------------------------------------------------- the smallest size

  /** Some member has these columns and some member these rows, and no member has fewer of either. */
  ghost predicate IsMin(members: map<ConnId, Winsize>, w: Winsize) {
    && (forall m | m in members :: w.cols <= members[m].cols && w.rows <= members[m].rows)
    && (exists m | m in members :: members[m].cols == w.cols)
    && (exists m | m in members :: members[m].rows == w.rows)
  }

  lemma MinUnique(members: map<ConnId, Winsize>, v: Winsize, w: Winsize)
    requires IsMin(members, v) && IsMin(members, w)
    ensures v == w
  {
  }

  function Smaller(v: Winsize, w: Winsize): Winsize {
    Winsize(if w.cols < v.cols then w.cols else v.cols, if w.rows < v.rows then w.rows else v.rows)
  }

  ghost function MinSize(members: map<ConnId, Winsize>): (w: Winsize)
    requires members != map[]
    ensures IsMin(members, w)
    decreases |members|
  {
    var m :| m in members;
    var rest := members - {m};
    assert members == rest[m := members[m]];
    if rest == map[] then
      assert members.Keys == {m};
      members[m]
    else
      var w := MinSize(rest);
      assert forall k | k in rest :: members[k] == rest[k];
      Smaller(w, members[m])
  }

  // ---------------------------------------------------------------- the operations

  /** The effective size after the members have changed; an empty set keeps the last one. */
  ghost function Effective(members: map<ConnId, Winsize>, current: Winsize): Winsize {
    if members == map[] then current else MinSize(members)
  }

  /** Settle on the effective size: push it and tell everyone if it changed. */
  ghost function Settle(s: State, members: map<ConnId, Winsize>, told: map<ConnId, Winsize>): State {
    var eff := Effective(members, s.current);
    s.(members := members, current := eff,
       applied := if eff != s.current then Some(eff) else s.applied,
       told := if eff != s.current then (map m | m in members :: eff) else told)
  }

  ghost function Step(s: State, op: Op): State {
    match op
    case Add(c, ws) =>
      var s' := Settle(s, s.members[c := ws], s.told);
      s'.(nextID := s.nextID + 1, told := s'.told[c := s'.current])
    case Update(c, ws) =>
      if c !in s.members then s else Settle(s, s.members[c := ws], s.told)
    case Remove(c) =>
      if c !in s.members then s else Settle(s, s.members - {c}, s.told - {c})
  }

  ghost function Exec(ops: seq<Op>): State {
    if ops == [] then INITIAL else Step(Exec(Front(ops)), Last(ops))
  }

  // ---------------------------------------------------------------- the invariant over every run

  /** While anyone is attached, the effective size is the smallest, everyone has been told it, and it is the
      last size pushed; nothing is pushed only while the effective size is still its zero value. */
  ghost predicate Inv(s: State) {
    && (s.members != map[] ==> IsMin(s.members, s.current))
    && s.told.Keys == s.members.Keys
    && (forall m | m in s.members :: s.told[m] == s.current)
    && (s.applied == Some(s.current) || (s.applied == None && s.current == ZERO))
  }

  lemma SettleKeeps(s: State, members: map<ConnId, Winsize>, told: map<ConnId, Winsize>)
    requires Inv(s)
    requires forall m | m in told :: told[m] == s.current
    ensures var s' := Settle(s, members, told);
      && (members != map[] ==> IsMin(members, s'.current))
      && (s'.applied == Some(s'.current) || (s'.applied == None && s'.current == ZERO))
      && (forall m | m in s'.told :: s'.told[m] == s'.current)
      && s'.told.Keys == if s'.current != s.current then members.Keys else told.Keys
  {
  }

  lemma StepKeeps(s: State, op: Op)
    requires Inv(s)
    ensures Inv(Step(s, op))
  {
    match op
    case Add(c, ws) => SettleKeeps(s, s.members[c := ws], s.told);
    case Update(c, ws) =>
      if c in s.members {
        assert s.members[c := ws].Keys == s.members.Keys;
        SettleKeeps(s, s.members[c := ws], s.told);
      }
    case Remove(c) =>
      if c in s.members {
        SettleKeeps(s, s.members - {c}, s.told - {c});
      }
  }

  /** After any run of whole operations, whatever the sizes: min wins, everyone agrees, the PTY agrees. */
  lemma {:induction false} RunKeeps(ops: seq<Op>)
    ensures Inv(Exec(ops))
  {
    if ops != [] {
      RunKeeps(Front(ops));
      StepKeeps(Exec(Front(ops)), Last(ops));
    }
  }

  predicate Positive(w: Winsize) {
    w.cols > 0 && w.rows > 0
  }

  ghost predicate PositiveSizes(ops: seq<Op>) {
    forall i | 0 <= i < |ops| && !ops[i].Remove? :: Positive(ops[i].ws)
  }

  lemma {:induction false} MembersPositive(ops: seq<Op>)
    requires PositiveSizes(ops)
    ensures forall m | m in Exec(ops).members :: Positive(Exec(ops).members[m])
  {
    if ops != [] {
      MembersPositive(Front(ops));
    }
  }

  /** With positive sizes, as the attach handler admits, the size in force while anyone is attached has been
      pushed to the PTY and told to every member. */
  lemma MinWins(ops: seq<Op>)
    requires PositiveSizes(ops) && Exec(ops).members != map[]
    ensures var s := Exec(ops);
      && IsMin(s.members, s.current) && Positive(s.current)
      && s.applied == Some(s.current)
      && forall m | m in s.members :: m in s.told && s.told[m] == s.current
  {
    RunKeeps(ops);
    MembersPositive(ops);
  }

  // ---------------------------------------------------------------- what the clients declared

  /** An Add of `c` with no later Remove of it. */
  ghost predicate Present(ops: seq<Op>, c: ConnId) {
    exists i :: 0 <= i < |ops| && AddedLast(ops, c, i)
  }

  ghost predicate AddedLast(ops: seq<Op>, c: ConnId, i: nat)
    requires i < |ops|
  {
    ops[i].Add? && ops[i].c == c && forall j | i < j < |ops| :: ops[j] != Remove(c)
  }

  predicate Declares(op: Op, c: ConnId) {
    !op.Remove? && op.c == c
  }

  /** The last Add or Update of `c` gives this size. */
  ghost predicate LastDeclared(ops: seq<Op>, c: ConnId, ws: Winsize) {
    exists i :: 0 <= i < |ops| && DeclaredAt(ops, c, ws, i)
  }

  ghost predicate DeclaredAt(ops: seq<Op>, c: ConnId, ws: Winsize, i: nat)
    requires i < |ops|
  {
    Declares(ops[i], c) && ops[i].ws == ws && forall j | i < j < |ops| :: !Declares(ops[j], c)
  }

  lemma PresentSnoc(ops: seq<Op>, op: Op, c: ConnId)
    ensures Present(ops + [op], c) <==> (op.Add? && op.c == c) || (op != Remove(c) && Present(ops, c))
  {
    var all, n := ops + [op], |ops|;
    assert all[n] == op && forall i | 0 <= i < n :: all[i] == ops[i];
    if op.Add? && op.c == c {
      assert AddedLast(all, c, n);
    }
    if op != Remove(c) && Present(ops, c) {
      var i :| 0 <= i < n && AddedLast(ops, c, i);
      assert AddedLast(all, c, i);
    }
    if Present(all, c) && !(op.Add? && op.c == c) {
      var i :| 0 <= i < |all| && AddedLast(all, c, i);
      assert i < n && AddedLast(ops, c, i);
    }
  }

  lemma LastDeclaredSnoc(ops: seq<Op>, op: Op, c: ConnId, ws: Winsize)
    ensures Declares(op, c) && op.ws == ws ==> LastDeclared(ops + [op], c, ws)
    ensures !Declares(op, c) && LastDeclared(ops, c, ws) ==> LastDeclared(ops + [op], c, ws)
  {
    var all, n := ops + [op], |ops|;
    assert all[n] == op && forall i | 0 <= i < n :: all[i] == ops[i];
    if Declares(op, c) && op.ws == ws {
      assert DeclaredAt(all, c, ws, n);
    }
    if !Declares(op, c) && LastDeclared(ops, c, ws) {
      var i :| 0 <= i < n && DeclaredAt(ops, c, ws, i);
      assert DeclaredAt(all, c, ws, i);
    }
  }

  /** A client has declared one size last. */
  lemma DeclaredOnce(ops: seq<Op>, c: ConnId, v: Winsize, w: Winsize)
    requires LastDeclared(ops, c, v) && LastDeclared(ops, c, w)
    ensures v == w
  {
    var i :| 0 <= i < |ops| && DeclaredAt(ops, c, v, i);
    var j :| 0 <= j < |ops| && DeclaredAt(ops, c, w, j);
    assert i <= j && j <= i;
  }

  lemma StepMembers(s: State, op: Op, c: ConnId)
    ensures c in Step(s, op).members <==> (op.Add? && op.c == c) || (op != Remove(c) && c in s.members)
    ensures c in Step(s, op).members ==>
      Step(s, op).members[c] == if Declares(op, c) then op.ws else s.members[c]
  {
  }

  /** After any run a client is a member if and only if it was added and not removed since, with the size it
      declared last. */
  lemma {:induction false} MembersAreDeclared(ops: seq<Op>, c: ConnId)
    ensures c in Exec(ops).members <==> Present(ops, c)
    ensures c in Exec(ops).members ==> LastDeclared(ops, c, Exec(ops).members[c])
  {
    if ops != [] {
      var f, op := Front(ops), Last(ops);
      assert ops == f + [op];
      MembersAreDeclared(f, c);
      PresentSnoc(f, op, c);
      StepMembers(Exec(f), op, c);
      if c in Exec(ops).members {
        LastDeclaredSnoc(f, op, c, Exec(ops).members[c]);
      }
    }
  }

  /** Of the sizes last declared by the clients present, this is the least in each dimension, and attained. */
  ghost predicate IsMinDeclared(ops: seq<Op>, w: Winsize) {
    && (forall c, ws | Present(ops, c) && LastDeclared(ops, c, ws) :: w.cols <= ws.cols && w.rows <= ws.rows)
    && (exists c, ws :: Present(ops, c) && LastDeclared(ops, c, ws) && ws.cols == w.cols)
    && (exists c, ws :: Present(ops, c) && LastDeclared(ops, c, ws) && ws.rows == w.rows)
  }

  lemma MinIsDeclared(ops: seq<Op>, w: Winsize)
    requires IsMin(Exec(ops).members, w)
    ensures IsMinDeclared(ops, w)
  {
    var members := Exec(ops).members;
    forall c, ws | Present(ops, c) && LastDeclared(ops, c, ws) ensures w.cols <= ws.cols && w.rows <= ws.rows {
      MembersAreDeclared(ops, c);
      DeclaredOnce(ops, c, ws, members[c]);
    }
    var c :| c in members && members[c].cols == w.cols;
    MembersAreDeclared(ops, c);
    var r :| r in members && members[r].rows == w.rows;
    MembersAreDeclared(ops, r);
  }

  /** After any run with positive sizes and some client present: the size in force is the minimum of the sizes
      the clients present declared last, it is the last one pushed to the PTY, and every client present has
      been told it. */
  lemma {:induction false} DeclaredMinWins(ops: seq<Op>)
    requires PositiveSizes(ops) && exists c :: Present(ops, c)
    ensures var s := Exec(ops);
      && IsMinDeclared(ops, s.current) && Positive(s.current) && s.applied == Some(s.current)
      && forall c | Present(ops, c) :: c in s.told && s.told[c] == s.current
  {
    var c :| Present(ops, c);
    MembersAreDeclared(ops, c);
    MinWins(ops);
    MinIsDeclared(ops, Exec(ops).current);
    forall c | Present(ops, c) ensures c in Exec(ops).told && Exec(ops).told[c] == Exec(ops).current {
      MembersAreDeclared(ops, c);
    }
  }

  function Adds(ops: seq<Op>): nat {
    if ops == [] then 0 else Adds(Front(ops)) + if Last(ops).Add? then 1 else 0
  }

  /** Every Add draws a new number. */
  lemma {:induction false} NumbersDrawn(ops: seq<Op>)
    ensures Exec(ops).nextID == Adds(ops)
  {
    if ops != [] {
      NumbersDrawn(Front(ops));
    }
  }

  // ---------------------------------------------------------------- how the size moves

  /** A newcomer to a non-empty set never grows either dimension. */
  lemma AddNeverGrows(s: State, c: ConnId, ws: Winsize)
    requires Inv(s) && s.members != map[] && c !in s.members
    ensures var w := Step(s, Add(c, ws)).current; w.cols <= s.current.cols && w.rows <= s.current.rows
  {
    var members := s.members[c := ws];
    StepKeeps(s, Add(c, ws));
    assert forall m | m in s.members :: m in members && members[m] == s.members[m];
  }

  /** A departure that leaves members never shrinks either dimension; the last departure keeps the size. */
  lemma RemoveNeverShrinks(s: State, c: ConnId)
    requires Inv(s)
    ensures var s' := Step(s, Remove(c));
      && s.current.cols <= s'.current.cols && s.current.rows <= s'.current.rows
      && (s'.members == map[] ==> s'.current == s.current && s'.applied == s.applied)
  {
    if c in s.members {
      StepKeeps(s, Remove(c));
      var members := s.members - {c};
      assert forall m | m in members :: m in s.members && members[m] == s.members[m];
    }
  }

  // ---------------------------------------------------------------- the set as an object

  /** What everyone has been told once some receivers have been sent a size. */
  ghost function SentTo(told: map<ConnId, Winsize>, receivers: set<ConnId>, eff: Winsize): map<ConnId, Winsize> {
    map m | m in told.Keys + receivers :: if m in receivers then eff else told[m]
  }

  /** Telling everyone but the newcomer, and the newcomer by Add's result, tells everyone. */
  lemma NewcomerTold(s: State, c: ConnId, ws: Winsize, told: map<ConnId, Winsize>)
    requires Inv(s)
    requires var s' := Step(s, Add(c, ws));
      told == if s'.current != s.current then SentTo(s.told, s'.members.Keys - {c}, s'.current) else s.told
    ensures told[c := Step(s, Add(c, ws)).current] == Step(s, Add(c, ws)).told
  {
  }

  class AttachSet {
    var members: map<ConnId, Winsize>
    var current: Winsize
    var nextID: nat
    var applied: Option<Winsize>
    var told: map<ConnId, Winsize>

    ghost function View(): State
      reads this
    {
      State(members, current, nextID, applied, told)
    }

    constructor ()
      ensures View() == INITIAL
    {
      members, current, nextID, applied, told := map[], ZERO, 0, None, map[];
    }

    /** Fold over the members in whatever order the map yields them. */
    method Recompute() returns (eff: Winsize, changed: bool)
      modifies `current
      ensures current == eff == Effective(members, old(current))
      ensures changed <==> eff != old(current)
    {
      if members == map[] {
        return current, false;
      }
      eff := SmallestOf(members);
      MinUnique(members, eff, MinSize(members));
      if eff != current {
        current := eff;
        return eff, true;
      }
      return eff, false;
    }

    static method SmallestOf(members: map<ConnId, Winsize>) returns (eff: Winsize)
      requires members != map[]
      ensures IsMin(members, eff)
    {
      var todo := members.Keys;
      var first := true;
      eff := ZERO;
      assert todo != {};
      while todo != {}
        invariant todo <= members.Keys
        invariant first ==> todo == members.Keys
        invariant !first ==>
          && (forall m | m in members && m !in todo :: eff.cols <= members[m].cols && eff.rows <= members[m].rows)
          && (exists m | m in members :: members[m].cols == eff.cols)
          && (exists m | m in members :: members[m].rows == eff.rows)
        decreases todo
      {
        var m :| m in todo;
        todo := todo - {m};
        var ws := members[m];
        if first {
          eff, first := ws, false;
        } else {
          if ws.cols < eff.cols {
            eff := eff.(cols := ws.cols);
          }
          if ws.rows < eff.rows {
            eff := eff.(rows := ws.rows);
          }
        }
      }
    }

    /** Send a size to each receiver, in any order. */
    method Broadcast(receivers: set<ConnId>, eff: Winsize)
      modifies `told
      ensures told == SentTo(old(told), receivers, eff)
    {
      var todo := receivers;
      while todo != {}
        invariant todo <= receivers
        invariant told.Keys == old(told).Keys + (receivers - todo)
        invariant forall m | m in told :: told[m] == if m in receivers - todo then eff else old(told)[m]
        decreases todo
      {
        var m :| m in todo;
        told := told[m := eff];
        todo := todo - {m};
      }
    }

    method DoAdd(c: ConnId, ws: Winsize) returns (eff: Winsize)
      requires Inv(View())
      modifies this
      ensures View() == Step(old(View()), Add(c, ws)) && Inv(View()) && eff == current
    {
      StepKeeps(View(), Add(c, ws));
      nextID := nextID + 1;
      members := members[c := ws];
      var changed;
      eff, changed := Recompute();
      if changed {
        applied := Some(eff);
        Broadcast(members.Keys - {c}, eff);
      }
      NewcomerTold(old(View()), c, ws, told);
      told := told[c := eff];
    }

    method DoUpdate(c: ConnId, ws: Winsize) returns (eff: Winsize)
      requires Inv(View())
      modifies this
      ensures View() == Step(old(View()), Update(c, ws)) && Inv(View()) && eff == current
    {
      StepKeeps(View(), Update(c, ws));
      if c !in members {
        return current;
      }
      members := members[c := ws];
      var changed;
      eff, changed := Recompute();
      if changed {
        applied := Some(eff);
        Broadcast(members.Keys, eff);
      }
      assert told == Step(old(View()), Update(c, ws)).told;
    }

    method DoRemove(c: ConnId)
      requires Inv(View())
      modifies this
      ensures View() == Step(old(View()), Remove(c)) && Inv(View())
    {
      StepKeeps(View(), Remove(c));
      if c !in members {
        return;
      }
      members, told := members - {c}, told - {c};
      var eff, changed := Recompute();
      if changed {
        applied := Some(eff);
        Broadcast(members.Keys, eff);
      }
      assert told == Step(old(View()), Remove(c)).told;
    }
  }
}

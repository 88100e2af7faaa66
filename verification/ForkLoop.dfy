/** The accept loop of the file server over all its processes. A child runs the same loop
    as its parent once its session is over. */
module ForkLoop {

  import opened Wrappers

  type Pid = nat
  type Connection = nat

  /** Where a process stands in the loop. */
  datatype Place =
    | Accepting
    | Forking(connection: Connection)
    | Releasing(connection: Connection)
    | Serving(connection: Connection)
    | Closing(connection: Connection)

  /** A process and the client descriptors it has open. */
  datatype Process = Process(place: Place, fds: set<Connection>)

  /** The processes alive, the next process and connection numbers, and a history: the
      child each connection was forked to. */
  datatype State = State(
    procs: map<Pid, Process>, nextPid: Pid, nextConnection: Connection, served: map<Connection, Pid>)

  datatype Action =
    | Accept(p: Pid)
    | AcceptFails(p: Pid)
    | Fork(p: Pid)
    | ForkFails(p: Pid)
    | Release(p: Pid)
    | EndSession(p: Pid)
    | CrashSession(p: Pid)
    | CloseSession(p: Pid)

  function Init(): State {
    State(map[0 := Process(Accepting, {})], 1, 0, map[])
  }

  /** One step of process `a.p`. */
  function Next(s: State, a: Action): Option<State> {
    if a.p !in s.procs then None
    else
      var me := s.procs[a.p];
      match (a, me.place)
      case (Accept(p), Accepting) =>
        var c := s.nextConnection;
        Some(s.(procs := s.procs[p := Process(Forking(c), me.fds + {c})], nextConnection := c + 1))
      case (AcceptFails(_), Accepting) =>
        Some(s)
      case (Fork(p), Forking(c)) =>
        var child := s.nextPid;
        Some(s.(procs := s.procs[p := Process(Releasing(c), me.fds)][child := Process(Serving(c), me.fds)],
                nextPid := child + 1, served := s.served[c := child]))
      case (ForkFails(p), Forking(_)) =>
        Some(s.(procs := s.procs - {p}))
      case (Release(p), Releasing(c)) =>
        Some(s.(procs := s.procs[p := Process(Accepting, me.fds - {c})]))
      case (EndSession(p), Serving(c)) =>
        Some(s.(procs := s.procs[p := Process(Closing(c), me.fds)]))
      case (CrashSession(p), Serving(_)) =>
        Some(s.(procs := s.procs - {p}))
      case (CloseSession(p), Closing(c)) =>
        Some(s.(procs := s.procs[p := Process(Accepting, me.fds - {c})]))
      case _ => None
  }

  function After(schedule: seq<Action>): Option<State> {
    if schedule == [] then Some(Init())
    else
      match After(schedule[..|schedule| - 1])
      case None => None
      case Some(s) => Next(s, schedule[|schedule| - 1])
  }

  /** How often some kinds of step occur in a schedule. */
  datatype Tally = Tally(forks: nat, completed: nat, crashed: nat, failed: nat)

  function Count(n: Tally, a: Action): Tally {
    match a
    case Fork(_) => n.(forks := n.forks + 1)
    case EndSession(_) => n.(completed := n.completed + 1)
    case CrashSession(_) => n.(crashed := n.crashed + 1)
    case ForkFails(_) => n.(failed := n.failed + 1)
    case _ => n
  }

  function CountAll(schedule: seq<Action>): Tally {
    if schedule == [] then Tally(0, 0, 0, 0)
    else Count(CountAll(schedule[..|schedule| - 1]), schedule[|schedule| - 1])
  }

  // ---------------------------------------------------------------- the invariant

  /** A process holds the descriptor its place is about, and no other. */
  predicate HoldsItsOwn(me: Process) {
    me.fds == match me.place
              case Accepting => {}
              case Forking(c) => {c}
              case Releasing(c) => {c}
              case Serving(c) => {c}
              case Closing(c) => {c}
  }

  /** The numbers a process knows were handed out, and the history knows its session. */
  predicate Recorded(s: State, p: Pid) {
    p in s.procs ==>
      p < s.nextPid &&
      match s.procs[p].place
      case Accepting => true
      case Forking(c) => c < s.nextConnection && c !in s.served
      case Releasing(c) => c in s.served
      case Serving(c) => c in s.served && s.served[c] == p
      case Closing(c) => c in s.served && s.served[c] == p
  }

  /** Two processes share a descriptor only as the parent about to close it and the child
      that serves it. */
  predicate SharesAsFamily(s: State, p: Pid, q: Pid) {
    p in s.procs && q in s.procs && p != q ==>
      var a, b := s.procs[p].place, s.procs[q].place;
      a.Accepting? || b.Accepting? || a.connection != b.connection
      || (!a.Forking? && !b.Forking? && a.Releasing? != b.Releasing?)
  }

  function Outside(procs: map<Pid, Process>): set<Pid> {
    set p | p in procs && !procs[p].place.Serving?
  }

  ghost predicate Relations(s: State) {
    && (forall p :: p in s.procs ==> HoldsItsOwn(s.procs[p]))
    && (forall p :: Recorded(s, p))
    && (forall p, q :: SharesAsFamily(s, p, q))
    && (forall c :: c in s.served ==> c < s.nextConnection)
  }

  ghost predicate Inv(s: State, n: Tally) {
    && Relations(s)
    && |s.procs| + n.crashed + n.failed == 1 + n.forks
    && |Outside(s.procs)| + n.failed == 1 + n.completed
  }

  lemma OutsideUpdate(procs: map<Pid, Process>, p: Pid, me: Process)
    ensures var was := p in procs && !procs[p].place.Serving?;
            var now := !me.place.Serving?;
            |Outside(procs[p := me])| + (if was then 1 else 0) == |Outside(procs)| + (if now then 1 else 0)
    ensures |procs[p := me]| == |procs| + (if p in procs then 0 else 1)
  {
    var before, after := Outside(procs), Outside(procs[p := me]);
    if !me.place.Serving? {
      assert after == before + {p};
    } else {
      assert after == before - {p};
    }
    assert procs[p := me].Keys == procs.Keys + {p};
  }

  lemma OutsideRemove(procs: map<Pid, Process>, p: Pid)
    requires p in procs
    ensures |Outside(procs - {p})| + (if procs[p].place.Serving? then 0 else 1) == |Outside(procs)|
    ensures |procs - {p}| == |procs| - 1
  {
    assert Outside(procs - {p}) == Outside(procs) - {p};
  }

  lemma RemoveKeeps(s: State, t: State, p: Pid)
    requires Relations(s) && t.procs == s.procs - {p}
    requires t.served == s.served && t.nextPid == s.nextPid && t.nextConnection == s.nextConnection
    ensures Relations(t)
  {
    forall q ensures Recorded(t, q) { assert Recorded(s, q); }
    forall q, r ensures SharesAsFamily(t, q, r) { assert SharesAsFamily(s, q, r); }
  }

  /** A step in which one process moves on without touching the others. */
  lemma UpdateKeeps(s: State, t: State, p: Pid)
    requires Relations(s) && p in s.procs
    requires p in t.procs && t.procs == s.procs[p := t.procs[p]] && HoldsItsOwn(t.procs[p])
    requires t.served == s.served && t.nextPid == s.nextPid && t.nextConnection >= s.nextConnection
    requires var was, now := s.procs[p].place, t.procs[p].place;
             || now.Accepting?
             || (now.Forking? && now.connection == s.nextConnection < t.nextConnection)
             || (now.Closing? && was == Serving(now.connection))
    ensures Relations(t)
  {
    forall q ensures Recorded(t, q) { assert Recorded(s, q); assert Recorded(s, p); }
    forall q, r ensures SharesAsFamily(t, q, r) {
      assert SharesAsFamily(s, q, r);
      assert Recorded(s, q) && Recorded(s, r);
    }
  }

  lemma ForkKeepsFamilies(s: State, p: Pid)
    requires Relations(s) && Next(s, Fork(p)).Some?
    ensures Relations(Next(s, Fork(p)).value)
  {
    var t := Next(s, Fork(p)).value;
    assert Recorded(s, p) && HoldsItsOwn(s.procs[p]);
    forall q ensures Recorded(t, q) { assert Recorded(s, q) && SharesAsFamily(s, p, q); }
    forall q, r ensures SharesAsFamily(t, q, r) {
      assert SharesAsFamily(s, q, r) && SharesAsFamily(s, q, p) && SharesAsFamily(s, p, r);
    }
  }

  lemma StepKeeps(s: State, n: Tally, a: Action)
    requires Inv(s, n) && Next(s, a).Some?
    ensures Inv(Next(s, a).value, Count(n, a))
  {
    var t := Next(s, a).value;
    var p := a.p;
    var me := s.procs[p];
    assert HoldsItsOwn(me) && Recorded(s, p);
    match a {
      case Fork(_) =>
        var c := me.place.connection;
        assert Recorded(s, s.nextPid);
        OutsideUpdate(s.procs, p, Process(Releasing(c), me.fds));
        OutsideUpdate(s.procs[p := Process(Releasing(c), me.fds)], s.nextPid, Process(Serving(c), me.fds));
        ForkKeepsFamilies(s, p);
      case ForkFails(_) => OutsideRemove(s.procs, p); RemoveKeeps(s, t, p);
      case CrashSession(_) => OutsideRemove(s.procs, p); RemoveKeeps(s, t, p);
      case Accept(_) => OutsideUpdate(s.procs, p, t.procs[p]); UpdateKeeps(s, t, p);
      case AcceptFails(_) =>
      case Release(_) => OutsideUpdate(s.procs, p, t.procs[p]); UpdateKeeps(s, t, p);
      case EndSession(_) => OutsideUpdate(s.procs, p, t.procs[p]); UpdateKeeps(s, t, p);
      case CloseSession(_) => OutsideUpdate(s.procs, p, t.procs[p]); UpdateKeeps(s, t, p);
    }
  }

  // ---------------------------------------------------------------- every run

  lemma {:induction false} Reachable(schedule: seq<Action>)
    requires After(schedule).Some?
    ensures Inv(After(schedule).value, CountAll(schedule))
  {
    if schedule == [] {
      assert Outside(Init().procs) == {0};
    } else {
      var before := schedule[..|schedule| - 1];
      Reachable(before);
      StepKeeps(After(before).value, CountAll(before), schedule[|schedule| - 1]);
    }
  }

  /** The processes that have a descriptor of connection `c` open. */
  function Holders(s: State, c: Connection): set<Pid> {
    set p | p in s.procs && c in s.procs[p].fds
  }

  lemma AtMostTwo(holders: set<Pid>)
    requires forall p, q, r :: p in holders && q in holders && r in holders ==> p == q || q == r || p == r
    ensures |holders| <= 2
  {
    if holders != {} {
      var p :| p in holders;
      var others := holders - {p};
      if others != {} {
        var q :| q in others;
        assert holders == {p, q};
      } else {
        assert holders == {p};
      }
    }
  }

  /** No connection ever has more than two descriptors open, and a process has only the
      one its place in the loop is about: none while it waits in `accept`, and exactly one
      whenever it forks. */
  lemma DescriptorsAreFew(schedule: seq<Action>, c: Connection)
    requires After(schedule).Some?
    ensures var s := After(schedule).value;
            && |Holders(s, c)| <= 2
            && forall p :: p in s.procs ==>
                 && (s.procs[p].place.Accepting? <==> s.procs[p].fds == {})
                 && (!s.procs[p].place.Accepting? ==> s.procs[p].fds == {s.procs[p].place.connection})
  {
    Reachable(schedule);
    var s := After(schedule).value;
    forall p, q, r | p in Holders(s, c) && q in Holders(s, c) && r in Holders(s, c)
      ensures p == q || q == r || p == r
    {
      assert SharesAsFamily(s, p, q) && SharesAsFamily(s, q, r) && SharesAsFamily(s, p, r);
    }
    AtMostTwo(Holders(s, c));
    forall p | p in s.procs
      ensures s.procs[p].place.Accepting? <==> s.procs[p].fds == {}
      ensures !s.procs[p].place.Accepting? ==> s.procs[p].fds == {s.procs[p].place.connection}
    {
      assert HoldsItsOwn(s.procs[p]);
    }
  }

  /** A connection keeps the process recorded as serving it. */
  lemma ServedStays(s: State, a: Action, c: Connection)
    requires Relations(s) && Next(s, a).Some? && c in s.served
    ensures var t := Next(s, a).value; c in t.served && t.served[c] == s.served[c]
  {
    if a.p in s.procs {
      assert Recorded(s, a.p);
    }
  }

  lemma {:induction false} ServedIsKept(schedule: seq<Action>, more: seq<Action>, c: Connection)
    requires After(schedule + more).Some?
    ensures After(schedule).Some?
    ensures c in After(schedule).value.served ==>
              && c in After(schedule + more).value.served
              && After(schedule + more).value.served[c] == After(schedule).value.served[c]
    decreases |more|
  {
    if more == [] {
      assert schedule + more == schedule;
    } else {
      var less := more[..|more| - 1];
      var a := more[|more| - 1];
      assert (schedule + more)[..|schedule + more| - 1] == schedule + less;
      ServedIsKept(schedule, less, c);
      Reachable(schedule + less);
      var s := After(schedule + less).value;
      if c in s.served {
        ServedStays(s, a, c);
      }
    }
  }

  predicate Serves(s: State, p: Pid, c: Connection) {
    p in s.procs && s.procs[p].place == Serving(c)
  }

  /** The loop, step by step: only the process itself moves, and a fork adds the child that
      serves while the parent is left to close its descriptor. */
  lemma LoopOrder(s: State, a: Action)
    requires Relations(s) && Next(s, a).Some?
    ensures var t, was := Next(s, a).value, s.procs[a.p].place;
            && (forall q :: q in s.procs && q != a.p ==> q in t.procs && t.procs[q] == s.procs[q])
            && match a
               case Accept(p) => was == Accepting && t.procs[p].place == Forking(s.nextConnection)
               case AcceptFails(_) => was == Accepting && t == s
               case Fork(p) =>
                 && was.Forking? && t.procs[p] == Process(Releasing(was.connection), {was.connection})
                 && s.nextPid !in s.procs
                 && t.procs[s.nextPid] == Process(Serving(was.connection), {was.connection})
               case ForkFails(p) => was.Forking? && p !in t.procs
               case Release(p) => was.Releasing? && t.procs[p] == Process(Accepting, {})
               case EndSession(p) => was.Serving? && t.procs[p].place == Closing(was.connection)
               case CrashSession(p) => was.Serving? && p !in t.procs
               case CloseSession(p) => was.Closing? && t.procs[p] == Process(Accepting, {})
  {
    assert Recorded(s, s.nextPid) && HoldsItsOwn(s.procs[a.p]);
  }

  /** A process has no other steps than its place in the loop gives it, and has all of those. */
  lemma StepsOfAPlace(s: State, p: Pid)
    requires p in s.procs
    ensures Next(s, Accept(p)).Some? <==> s.procs[p].place.Accepting?
    ensures Next(s, AcceptFails(p)).Some? <==> s.procs[p].place.Accepting?
    ensures Next(s, Fork(p)).Some? <==> s.procs[p].place.Forking?
    ensures Next(s, ForkFails(p)).Some? <==> s.procs[p].place.Forking?
    ensures Next(s, Release(p)).Some? <==> s.procs[p].place.Releasing?
    ensures Next(s, EndSession(p)).Some? <==> s.procs[p].place.Serving?
    ensures Next(s, CrashSession(p)).Some? <==> s.procs[p].place.Serving?
    ensures Next(s, CloseSession(p)).Some? <==> s.procs[p].place.Closing?
  {
  }

  /** The process recorded for a connection is one forked after the connection was unserved. */
  lemma {:induction false} ServersAreNew(schedule: seq<Action>, more: seq<Action>, c: Connection)
    requires After(schedule).Some? && After(schedule + more).Some?
    requires c !in After(schedule).value.served
    ensures var s, t := After(schedule).value, After(schedule + more).value;
            s.nextPid <= t.nextPid && (c in t.served ==> t.served[c] >= s.nextPid)
    decreases |more|
  {
    if more == [] {
      assert schedule + more == schedule;
    } else {
      var less := more[..|more| - 1];
      assert (schedule + more)[..|schedule + more| - 1] == schedule + less;
      ServersAreNew(schedule, less, c);
    }
  }

  /** The child serves, not the process that accepted: over the whole of a run, whoever serves
      a connection did not exist while the connection was waiting for its fork. */
  lemma ServedByAChild(schedule: seq<Action>, more: seq<Action>, c: Connection, p: Pid, q: Pid)
    requires After(schedule).Some? && After(schedule + more).Some?
    requires p in After(schedule).value.procs && After(schedule).value.procs[p].place == Forking(c)
    requires Serves(After(schedule + more).value, q, c)
    ensures q !in After(schedule).value.procs && q != p
  {
    Reachable(schedule);
    Reachable(schedule + more);
    assert Recorded(After(schedule).value, p) && Recorded(After(schedule + more).value, q);
    ServersAreNew(schedule, more, c);
    assert Recorded(After(schedule).value, q);
  }

  /** The server process itself never serves: it accepts, forks and closes its descriptor. */
  lemma FirstProcessNeverServes(schedule: seq<Action>)
    requires After(schedule).Some? && 0 in After(schedule).value.procs
    ensures var place := After(schedule).value.procs[0].place; !place.Serving? && !place.Closing?
  {
    Reachable(schedule);
    var s := After(schedule).value;
    assert Recorded(s, 0);
    if s.procs[0].place.Serving? || s.procs[0].place.Closing? {
      assert [] + schedule == schedule;
      ServersAreNew([], schedule, s.procs[0].place.connection);
    }
  }

  /** Exclusive service: over the whole of a run, whatever forks, crashes and new
      connections lie between, one connection is served by one process only. */
  lemma ServedByOneProcess(schedule: seq<Action>, more: seq<Action>, c: Connection, p: Pid, q: Pid)
    requires After(schedule).Some? && After(schedule + more).Some?
    requires Serves(After(schedule).value, p, c) && Serves(After(schedule + more).value, q, c)
    ensures p == q
  {
    Reachable(schedule);
    Reachable(schedule + more);
    ServedIsKept(schedule, more, c);
    assert Recorded(After(schedule).value, p) && Recorded(After(schedule + more).value, q);
  }

  /** A process has accepted the connection and is about to fork for it. */
  ghost predicate InHand(s: State, c: Connection) {
    exists p :: p in s.procs && s.procs[p].place == Forking(c)
  }

  /** The connections accepted that no process was ever forked for or is about to be. */
  ghost function Lost(s: State): set<Connection> {
    set c | 0 <= c < s.nextConnection && c !in s.served && !InHand(s, c)
  }

  /** What process `p` has in hand is the only thing its step can take out of hand. */
  lemma OthersStayInHand(s: State, a: Action, c: Connection)
    requires Relations(s) && Next(s, a).Some? && s.procs[a.p].place != Forking(c)
    requires c < s.nextConnection
    ensures InHand(Next(s, a).value, c) <==> InHand(s, c)
  {
    var t := Next(s, a).value;
    assert Recorded(s, s.nextPid);
    if p :| p in s.procs && s.procs[p].place == Forking(c) {
      assert p in t.procs && t.procs[p].place == Forking(c);
    }
    if p :| p in t.procs && t.procs[p].place == Forking(c) {
      assert p in s.procs && s.procs[p].place == Forking(c);
    }
  }

  /** A connection is lost in the step that fails to fork for it, and in no other. */
  lemma LostStep(s: State, a: Action)
    requires Relations(s) && Next(s, a).Some?
    ensures var t := Next(s, a).value;
            if a.ForkFails? then
              s.procs[a.p].place.connection !in Lost(s) && Lost(t) == Lost(s) + {s.procs[a.p].place.connection}
            else Lost(t) == Lost(s)
  {
    var t := Next(s, a).value;
    var place := s.procs[a.p].place;
    assert Recorded(s, a.p);
    forall c: Connection | c < s.nextConnection && place != Forking(c) ensures InHand(t, c) <==> InHand(s, c) {
      OthersStayInHand(s, a, c);
    }
    match a
    case Accept(p) =>
      assert t.procs[p].place == Forking(s.nextConnection);
    case ForkFails(p) =>
      assert InHand(s, place.connection);
      forall q | q in t.procs ensures t.procs[q].place != Forking(place.connection) {
        assert SharesAsFamily(s, p, q);
      }
    case Fork(p) => assert InHand(s, place.connection);
    case _ =>
  }

  /** The other half of exclusive service, for every run: of the connections accepted
      exactly as many as forks failed are neither served nor about to be. */
  lemma {:induction false} LostOnlyToFailedForks(schedule: seq<Action>)
    requires After(schedule).Some?
    ensures |Lost(After(schedule).value)| == CountAll(schedule).failed
  {
    if schedule == [] {
      assert Lost(Init()) == {};
    } else {
      var before := schedule[..|schedule| - 1];
      LostOnlyToFailedForks(before);
      Reachable(before);
      LostStep(After(before).value, schedule[|schedule| - 1]);
    }
  }

  /** While no fork fails every connection is served by a process of its own or is in hand. */
  lemma EveryConnectionServed(schedule: seq<Action>, c: Connection)
    requires After(schedule).Some? && CountAll(schedule).failed == 0
    requires c < After(schedule).value.nextConnection
    ensures c in After(schedule).value.served || InHand(After(schedule).value, c)
  {
    LostOnlyToFailedForks(schedule);
    assert Lost(After(schedule).value) == {};
    assert c !in Lost(After(schedule).value);
  }

  /** The census of every run: each fork adds a process and each crash or failed fork takes
      one away, so does a failed fork from those outside a session, while each completed
      session adds one. */
  lemma Census(schedule: seq<Action>)
    requires After(schedule).Some?
    ensures var s, n := After(schedule).value, CountAll(schedule);
            && |s.procs| == 1 + n.forks - n.crashed - n.failed
            && |Outside(s.procs)| == 1 + n.completed - n.failed
  {
    Reachable(schedule);
  }
}

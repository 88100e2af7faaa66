/** What holds of every run of a ping. */
module PingTheorems {

  import opened Ping
  import opened Sequences
  import opened Wrappers

  /** A NUL at the end of the message and nowhere else. */
  predicate OneNul(m: string) {
    |m| >= 2 && forall i :: 0 <= i < |m| ==> (m[i] == NUL <==> i == |m| - 1)
  }

  /** A reader of the message sees a chunk end in NUL exactly when it has all of it. */
  lemma EndsInNulIffWhole(m: string, k: nat)
    requires OneNul(m) && k <= |m|
    ensures EndsInNul(m[..k]) <==> k == |m|
    ensures m[..|m|] == m
  {
  }

  /** The head of what was cut from `m` is cut from `m`. */
  lemma PrefixOf(m: string, k: nat, read: string, channel: string, n: nat)
    requires k <= |m| && read + channel == m[..k] && n <= |channel|
    ensures read + channel[..n] == m[..|read| + n] && |read| + n <= k
    ensures (read + channel[..n]) + channel[n..] == m[..k]
  {
  }

  // ---------------------------------------------------------------- steps

  /** Both sides may move any part of what they have or find: the sender writes only while
      short of `strlen` but may then include the NUL, and reads at most `realsize` octets at
      a time, the server at most 1024; each sees the end of the stream when the other is
      done and nothing is in flight. */
  lemma StepsThereAre(c: Setup, s: State, n: nat)
    requires WellFormed(c)
    ensures var size := c.msgSize * 1024 % 0x1_0000_0000;
            && (Next(c, s, ClientSend(n)).Some? <==>
                  s.client.Sending? && s.client.total < size - 1 && 1 <= n && s.client.total + n <= size
                  && |s.up| + n <= c.upRoom)
            && (Next(c, s, ClientRead(n)).Some? <==> s.client.Receiving? && 1 <= n <= |s.down| && n <= size)
    ensures Next(c, s, ServerRead(n)).Some? <==> s.server.Listening? && 1 <= n <= |s.up| && n <= 1024
    ensures Next(c, s, ServerSend(n)).Some? <==>
              s.server.Echoing? && 1 <= n && s.server.sent + n <= |s.server.data| && |s.down| + n <= c.downRoom
    ensures Next(c, s, ClientEof).Some? <==> s.client.Receiving? && s.down == "" && s.server.Done?
    ensures Next(c, s, ServerEof).Some? <==> s.server.Listening? && s.up == "" && s.client.Returned?
    ensures Next(c, s, ClientEof).Some? ==>
              Next(c, s, ClientEof).value == s.(client := Compare(c, s.client.total, s.client.received))
    ensures Next(c, s, ServerEof).Some? ==>
              Next(c, s, ServerEof).value
              == s.(server := if s.server.data == "" then Done("") else Echoing(s.server.data, 0))
  {
  }

  lemma SendStep(c: Setup, m: string, s: State, n: nat)
    requires WellFormed(c) && m == Message(c) && OneNul(m) && Inv(m, s) && NextClientSend(c, s, n).Some?
    ensures var t := NextClientSend(c, s, n).value; Inv(m, t) && Work(m, t) < Work(m, s)
  {
    WriteExtends(s.server.data, s.up, m, s.client.total, n);
  }

  lemma ReadStep(c: Setup, m: string, s: State, n: nat)
    requires WellFormed(c) && m == Message(c) && OneNul(m) && Inv(m, s) && NextClientRead(c, s, n).Some?
    ensures var t := NextClientRead(c, s, n).value; Inv(m, t) && Work(m, t) < Work(m, s)
  {
    var k := if s.server.Echoing? then s.server.sent else |m|;
    PrefixOf(m, k, s.client.received, s.down, n);
  }

  lemma ServeStep(m: string, s: State, n: nat)
    requires OneNul(m) && Inv(m, s) && NextServerRead(s, n).Some?
    ensures var t := NextServerRead(s, n).value; Inv(m, t) && Work(m, t) < Work(m, s)
  {
    PrefixOf(m, s.client.total, s.server.data, s.up, n);
  }

  lemma EchoStep(c: Setup, m: string, s: State, n: nat)
    requires WellFormed(c) && OneNul(m) && Inv(m, s) && NextServerSend(c, s, n).Some?
    ensures var t := NextServerSend(c, s, n).value; Inv(m, t) && Work(m, t) < Work(m, s)
  {
  }

  lemma StepKeeps(c: Setup, m: string, s: State, a: Action)
    requires WellFormed(c) && m == Message(c) && OneNul(m) && Inv(m, s) && Next(c, s, a).Some?
    ensures var t := Next(c, s, a).value; Inv(m, t) && Work(m, t) < Work(m, s)
  {
    match a
    case ClientSend(n) => SendStep(c, m, s, n);
    case ClientRead(n) => ReadStep(c, m, s, n);
    case ServerRead(n) => ServeStep(m, s, n);
    case ServerSend(n) => EchoStep(c, m, s, n);
    case ClientEof => assert false;
    case ServerEof => assert false;
  }

  // ---------------------------------------------------------------- all reachable states

  lemma MessageHasOneNul(c: Setup)
    requires WellFormed(c)
    ensures OneNul(Message(c))
  {
  }

  lemma {:induction false} Reachable(c: Setup, schedule: seq<Action>)
    requires WellFormed(c) && After(c, schedule).Some?
    ensures var m, s := Message(c), After(c, schedule).value;
            Inv(m, s) && |schedule| + Work(m, s) <= 4 * |m|
  {
    var m := Message(c);
    if schedule != [] {
      var before := schedule[..|schedule| - 1];
      Reachable(c, before);
      StepKeeps(c, m, After(c, before).value, schedule[|schedule| - 1]);
    }
  }

  /** Framing and bounds: the server always has a prefix of the message and echoes only the
      whole of it, the sender receives a prefix of it and never more than `realsize` octets
      whatever its reads ask for, and no run has more than four steps an octet. */
  lemma BuffersHoldPrefixes(c: Setup, schedule: seq<Action>)
    requires WellFormed(c) && After(c, schedule).Some?
    ensures var m, s := Message(c), After(c, schedule).value;
            && s.server.data <= m && (s.server.Listening? <==> s.server.data != m)
            && (s.client.Receiving? || s.client.Returned? ==> s.client.received <= m)
            && |schedule| <= 4 * |m|
  {
    Reachable(c, schedule);
    var m, s := Message(c), After(c, schedule).value;
    if s.server.Listening? {
      PrefixOf(m, s.client.total, s.server.data, s.up, 0);
      assert s.server.data + s.up[..0] == s.server.data;
    }
    if s.client.Receiving? && s.server.Echoing? {
      PrefixOf(m, s.server.sent, s.client.received, s.down, 0);
      assert s.client.received + s.down[..0] == s.client.received;
    }
  }

  // ---------------------------------------------------------------- the two outcomes

  /** Both sides wait on empty channels, the server one octet short. */
  predicate BothBlocked(m: string, s: State) {
    && |m| > 0
    && s.client == Receiving(|m| - 1, "")
    && s.server == Listening(m[..|m| - 1])
    && s.up == "" && s.down == ""
  }

  /** The ping succeeded. */
  predicate Succeeded(m: string, s: State) {
    s.client == Returned(|m|, m, true) && s.server == Done(m) && s.up == "" && s.down == ""
  }

  lemma TwoMore(c: Setup, schedule: seq<Action>, s: State, a: Action, b: Action)
    requires WellFormed(c) && After(c, schedule) == Some(s) && Next(c, s, a).Some?
    ensures After(c, schedule + [a] + [b]) == Next(c, Next(c, s, a).value, b)
  {
  }

  lemma DroppedStep(c: Setup, before: seq<Action>, a: Action)
    requires WellFormed(c) && After(c, before).Some?
    ensures Dropped(c, before + [a]) <==> Dropped(c, before) || DropsNul(c, After(c, before).value, a)
  {
    var schedule := before + [a];
    assert schedule[..|before|] == before;
    forall i | 0 <= i < |before| ensures schedule[..i] == before[..i] && schedule[i] == before[i] {
    }
  }

  /** The number of octets the sender has written tells whether the NUL was dropped. */
  lemma {:induction false} DroppedIffShort(c: Setup, schedule: seq<Action>)
    requires WellFormed(c) && After(c, schedule).Some?
    ensures var client := After(c, schedule).value.client;
            && (client.Sending? ==> client.total < |Message(c)| - 1 && !Dropped(c, schedule))
            && (!client.Sending? ==> (Dropped(c, schedule) <==> client.total == |Message(c)| - 1))
  {
    if schedule != [] {
      var before, a := schedule[..|schedule| - 1], schedule[|schedule| - 1];
      assert schedule == before + [a];
      DroppedIffShort(c, before);
      DroppedStep(c, before, a);
    }
  }

  /** From a state that is neither outcome somebody can move. */
  lemma SomeoneCanMove(c: Setup, m: string, s: State)
    requires WellFormed(c) && m == Message(c) && Inv(m, s) && !BothBlocked(m, s) && !Succeeded(m, s)
    ensures exists a :: Next(c, s, a).Some?
  {
    if s.server.Listening? && s.up != "" {
      assert Next(c, s, ServerRead(1)).Some?;
    } else if s.client.Sending? {
      assert Next(c, s, ClientSend(1)).Some?;
    } else if s.down != "" {
      assert Next(c, s, ClientRead(1)).Some?;
    } else if s.server.Echoing? {
      assert Next(c, s, ServerSend(1)).Some?;
    }
  }

  /** The dichotomy: a run that cannot go on has succeeded, or has both sides blocked for
      ever, the latter exactly when some write stopped at `strlen`. */
  lemma Dichotomy(c: Setup, schedule: seq<Action>)
    requires WellFormed(c) && After(c, schedule).Some?
    requires forall a :: Next(c, After(c, schedule).value, a) == None
    ensures var m, s := Message(c), After(c, schedule).value;
            if Dropped(c, schedule) then BothBlocked(m, s) else Succeeded(m, s)
  {
    Reachable(c, schedule);
    DroppedIffShort(c, schedule);
    var m, s := Message(c), After(c, schedule).value;
    if !BothBlocked(m, s) && !Succeeded(m, s) {
      SomeoneCanMove(c, m, s);
    }
  }

  /** Both outcomes are final. */
  lemma OutcomesAreAtRest(c: Setup, s: State, a: Action)
    requires WellFormed(c) && (BothBlocked(Message(c), s) || Succeeded(Message(c), s))
    ensures Next(c, s, a) == None
  {
  }

  // ---------------------------------------------------------------- when it can succeed

  /** The sender has written `i` octets, and the server has read them. */
  function Delivered(m: string, i: nat): State
    requires i < |m|
  {
    State(if i < |m| - 1 then Sending(i) else Receiving(i, ""), Listening(m[..i]), "", "")
  }

  lemma DeliverOne(c: Setup, i: nat)
    requires WellFormed(c) && i < |Message(c)| - 1
    ensures var m := Message(c);
            var s := Next(c, Delivered(m, i), ClientSend(1));
            s.Some? && Next(c, s.value, ServerRead(1)) == Some(Delivered(m, i + 1))
  {
    var m := Message(c);
    var t := Next(c, Delivered(m, i), ClientSend(1)).value;
    assert t.up == [m[i]] && t.up[..1] == t.up && t.up[1..] == "";
    assert m[..i] + [m[i]] == m[..i + 1];
  }

  /** Octet by octet, all but the NUL can always be delivered. */
  lemma {:induction false} DeliverMany(c: Setup, i: nat) returns (schedule: seq<Action>)
    requires WellFormed(c) && i <= |Message(c)| - 1
    ensures After(c, schedule) == Some(Delivered(Message(c), i))
  {
    if i == 0 {
      schedule := [];
    } else {
      var before := DeliverMany(c, i - 1);
      DeliverOne(c, i - 1);
      schedule := before + [ClientSend(1)] + [ServerRead(1)];
    }
  }

  /** Whatever the channels, a ping can lose its NUL and block both sides. */
  lemma CanAlwaysBlock(c: Setup)
    requires WellFormed(c)
    ensures exists schedule :: After(c, schedule).Some? && BothBlocked(Message(c), After(c, schedule).value)
  {
    var schedule := DeliverMany(c, |Message(c)| - 1);
  }

  /** The server has echoed `i` octets, and the sender has read them. */
  function Echoed(m: string, i: nat): State
    requires i < |m|
  {
    State(Receiving(|m|, m[..i]), Echoing(m, i), "", "")
  }

  /** Octet `i` is on its way back. */
  function Returning(m: string, i: nat): State
    requires i < |m|
  {
    State(Receiving(|m|, m[..i]), EchoLoop(m, i + 1), "", [m[i]])
  }

  lemma EchoSent(c: Setup, i: nat)
    requires WellFormed(c) && i < |Message(c)|
    ensures Next(c, Echoed(Message(c), i), ServerSend(1)) == Some(Returning(Message(c), i))
  {
    var m := Message(c);
    assert "" + m[i..i + 1] == [m[i]];
  }

  lemma EchoRead(c: Setup, i: nat)
    requires WellFormed(c) && i < |Message(c)|
    ensures var m := Message(c);
            Next(c, Returning(m, i), ClientRead(1))
            == Some(if i + 1 < |m| then Echoed(m, i + 1) else State(Returned(|m|, m, true), Done(m), "", ""))
  {
    var m := Message(c);
    MessageHasOneNul(c);
    var down := Returning(m, i).down;
    assert down[..1] == down && down[1..] == "" && m[..i] + down == m[..i + 1];
    EndsInNulIffWhole(m, i + 1);
    assert Padded(m, |m|) == m;
  }

  lemma EchoOne(c: Setup, i: nat)
    requires WellFormed(c) && i < |Message(c)|
    ensures var m := Message(c);
            var s := Next(c, Echoed(m, i), ServerSend(1));
            s.Some? && Next(c, s.value, ClientRead(1)).Some?
            && Next(c, s.value, ClientRead(1)).value
               == if i + 1 < |m| then Echoed(m, i + 1) else State(Returned(|m|, m, true), Done(m), "", "")
  {
    EchoSent(c, i);
    EchoRead(c, i);
  }

  lemma DeliverLastTwo(c: Setup)
    requires WellFormed(c) && c.upRoom >= 2
    ensures var m := Message(c);
            var s := Next(c, Delivered(m, |m| - 2), ClientSend(2));
            s.Some? && Next(c, s.value, ServerRead(2)) == Some(Echoed(m, 0))
  {
    var m := Message(c);
    MessageHasOneNul(c);
    var t := Next(c, Delivered(m, |m| - 2), ClientSend(2)).value;
    assert t.up == m[|m| - 2..] && t.up[..2] == t.up && t.up[2..] == "";
    assert m[..|m| - 2] + m[|m| - 2..] == m;
    assert m[..0] == "";
  }

  lemma EchoNone(c: Setup) returns (schedule: seq<Action>)
    requires WellFormed(c) && c.upRoom >= 2
    ensures After(c, schedule) == Some(Echoed(Message(c), 0))
  {
    var i := |Message(c)| - 2;
    var before := DeliverMany(c, i);
    DeliverLastTwo(c);
    schedule := before + [ClientSend(2)] + [ServerRead(2)];
  }

  lemma {:induction false} EchoMany(c: Setup, i: nat) returns (schedule: seq<Action>)
    requires WellFormed(c) && c.upRoom >= 2 && i < |Message(c)|
    ensures After(c, schedule) == Some(Echoed(Message(c), i))
  {
    if i == 0 {
      schedule := EchoNone(c);
    } else {
      var before := EchoMany(c, i - 1);
      EchoOne(c, i - 1);
      schedule := before + [ServerSend(1)] + [ClientRead(1)];
    }
  }

  lemma CanSucceed(c: Setup)
    requires WellFormed(c) && c.upRoom >= 2
    ensures exists schedule :: After(c, schedule).Some? && Succeeded(Message(c), After(c, schedule).value)
  {
    var before := EchoMany(c, |Message(c)| - 1);
    EchoOne(c, |Message(c)| - 1);
    TwoMore(c, before, Echoed(Message(c), |Message(c)| - 1), ServerSend(1), ClientRead(1));
    var schedule := before + [ServerSend(1)] + [ClientRead(1)];
  }

  /** Through a channel with room for one octet the NUL is always dropped. */
  lemma {:induction false} OneOctetNeverSucceeds(c: Setup, schedule: seq<Action>)
    requires WellFormed(c) && c.upRoom == 1 && After(c, schedule).Some?
    ensures After(c, schedule).value.client.total < |Message(c)|
  {
    if schedule != [] {
      OneOctetNeverSucceeds(c, schedule[..|schedule| - 1]);
    }
  }

  /** A ping can succeed if and only if the channel to the server has room for two. */
  lemma CanSucceedIffRoomForTwo(c: Setup)
    requires WellFormed(c)
    ensures (exists schedule :: After(c, schedule).Some? && Succeeded(Message(c), After(c, schedule).value))
            <==> c.upRoom >= 2
  {
    if c.upRoom >= 2 {
      CanSucceed(c);
    } else {
      forall schedule | After(c, schedule).Some? ensures !Succeeded(Message(c), After(c, schedule).value) {
        OneOctetNeverSucceeds(c, schedule);
      }
    }
  }
}

/** The push stream: one loop per connection that sends a snapshot when it changed, and
    says once that it is paused. */
module Stream {

  /** What wakes the loop: a tick of the clock, with what it then finds, or the client.
      `encodes` and `delivered` tell whether serialising and sending would succeed. */
  datatype Event =
    | Tick(enabled: bool, snapshot: string, ts: nat, encodes: bool, delivered: bool)
    | Ping(payload: string, delivered: bool)
    | OtherMessage
    | Close
    | RecvError

  datatype Frame = Snapshot(ts: nat, data: string) | Paused | Pong(payload: string)

  datatype State = State(lastHash: nat, lastPaused: bool, live: bool, sent: seq<Frame>)

  const INITIAL := State(0, false, true, [])

  // ── One event ────────────────────────────────────────────────────────

  function Send(s: State, f: Frame, delivered: bool): State
  {
    if delivered then s.(sent := s.sent + [f]) else s.(live := false)
  }

  function Next(hash: string -> nat, s: State, e: Event): State
  {
    if !s.live then s
    else
      match e
      case Tick(false, _, _, _, delivered) =>
        if s.lastPaused then s
        else
          var s' := Send(s, Paused, delivered);
          if delivered then s'.(lastPaused := true) else s'
      case Tick(true, snapshot, ts, encodes, delivered) =>
        var h := hash(snapshot);
        if h == s.lastHash then s.(lastPaused := false)
        else
          var s' := s.(lastHash := h, lastPaused := false);
          if !encodes then s' else Send(s', Snapshot(ts, snapshot), delivered)
      case Ping(payload, delivered) => Send(s, Pong(payload), delivered)
      case OtherMessage => s
      case _ => s.(live := false)
  }

  /** The state after a whole history. */
  function Run(hash: string -> nat, events: seq<Event>): State
    decreases |events|
  {
    if events == [] then INITIAL else Next(hash, Run(hash, events[..|events| - 1]), events[|events| - 1])
  }

  lemma RunOneMore(hash: string -> nat, events: seq<Event>, e: Event)
    ensures Run(hash, events + [e]) == Next(hash, Run(hash, events), e)
  {
    assert (events + [e])[..|events|] == events;
  }

  lemma {:induction false} ClosedStaysClosed(hash: string -> nat, events: seq<Event>, n: nat)
    requires n <= |events| && !Run(hash, events[..n]).live
    ensures Run(hash, events) == Run(hash, events[..n])
    decreases |events|
  {
    if n < |events| {
      assert events[..|events| - 1][..n] == events[..n];
      ClosedStaysClosed(hash, events[..|events| - 1], n);
    } else {
      assert events[..n] == events;
    }
  }

  // ── The loop ─────────────────────────────────────────────────────────

  /** Serves one connection until it ends; `sent` is what the client received. */
  method HandleSocket(hash: string -> nat, events: seq<Event>) returns (sent: seq<Frame>, live: bool)
    ensures sent == Run(hash, events).sent && live == Run(hash, events).live
  {
    sent, live := [], true;
    var lastHash: nat, lastPaused := 0, false;
    for i := 0 to |events|
      invariant live && Run(hash, events[..i]) == State(lastHash, lastPaused, live, sent)
    {
      assert events[..i + 1] == events[..i] + [events[i]];
      RunOneMore(hash, events[..i], events[i]);
      match events[i]
      case Tick(enabled, snapshot, ts, encodes, delivered) =>
        if !enabled {
          if !lastPaused {
            if !delivered {
              ClosedStaysClosed(hash, events, i + 1);
              return sent, false;
            }
            sent := sent + [Paused];
            lastPaused := true;
          }
          continue;
        }
        lastPaused := false;
        var h := hash(snapshot);
        if h == lastHash {
          continue;
        }
        lastHash := h;
        if !encodes {
          continue;
        }
        if !delivered {
          ClosedStaysClosed(hash, events, i + 1);
          return sent, false;
        }
        sent := sent + [Snapshot(ts, snapshot)];
      case Ping(payload, delivered) =>
        if !delivered {
          ClosedStaysClosed(hash, events, i + 1);
          return sent, false;
        }
        sent := sent + [Pong(payload)];
      case OtherMessage =>
      case _ =>
        ClosedStaysClosed(hash, events, i + 1);
        return sent, false;
    }
    assert events[..|events|] == events;
  }

  // ── What the client should see ───────────────────────────────────────

  function Finding(e: Event): seq<string>
  {
    if e.Tick? && e.enabled then [e.snapshot] else []
  }

  /** The snapshots found at the enabled ticks, in order. */
  function Found(events: seq<Event>): seq<string>
    decreases |events|
  {
    if events == [] then [] else Found(events[..|events| - 1]) + Finding(events[|events| - 1])
  }

  /** A sequence without its immediate repetitions. */
  function Changes(s: seq<string>): seq<string>
    decreases |s|
  {
    if |s| <= 1 then s
    else Changes(s[..|s| - 1]) + if s[|s| - 1] == s[|s| - 2] then [] else [s[|s| - 1]]
  }

  lemma {:induction false} ChangesProperties(s: seq<string>)
    ensures forall i | 0 < i < |Changes(s)| :: Changes(s)[i - 1] != Changes(s)[i]
    ensures Changes(s) == [] <==> s == []
    ensures s != [] ==> Changes(s)[|Changes(s)| - 1] == s[|s| - 1]
    ensures forall x :: x in Changes(s) <==> x in s
    decreases |s|
  {
    if |s| > 1 {
      ChangesProperties(s[..|s| - 1]);
      assert s == s[..|s| - 1] + [s[|s| - 1]];
    }
  }

  /** The snapshots a client received. */
  function Data(sent: seq<Frame>): seq<string>
    decreases |sent|
  {
    if sent == [] then []
    else
      var f := sent[|sent| - 1];
      Data(sent[..|sent| - 1]) + if f.Snapshot? then [f.data] else []
  }

  lemma DataOneMore(sent: seq<Frame>, f: Frame)
    ensures Data(sent + [f]) == Data(sent) + if f.Snapshot? then [f.data] else []
  {
    assert (sent + [f])[..|sent|] == sent;
  }

  /** The number of maximal runs of disabled ticks, and whether one is under way. */
  function Stretches(events: seq<Event>): (r: (nat, bool))
    decreases |events|
  {
    if events == [] then (0, false)
    else
      var (n, paused) := Stretches(events[..|events| - 1]);
      var e := events[|events| - 1];
      if !e.Tick? then (n, paused)
      else if e.enabled then (n, false)
      else (if paused then n else n + 1, true)
  }

  function Pauses(sent: seq<Frame>): nat
    decreases |sent|
  {
    if sent == [] then 0 else Pauses(sent[..|sent| - 1]) + if sent[|sent| - 1].Paused? then 1 else 0
  }

  lemma PausesOneMore(sent: seq<Frame>, f: Frame)
    ensures Pauses(sent + [f]) == Pauses(sent) + if f.Paused? then 1 else 0
  {
    assert (sent + [f])[..|sent|] == sent;
  }

  // ── What it does see ─────────────────────────────────────────────────

  predicate Works(e: Event)
  {
    match e
    case Tick(_, _, _, encodes, delivered) => encodes && delivered
    case Ping(_, delivered) => delivered
    case OtherMessage => true
    case _ => false
  }

  /** Nothing fails and nobody hangs up. */
  predicate Smooth(events: seq<Event>) { forall e | e in events :: Works(e) }

  /** The hash tells the snapshots of this history apart, and from the initial zero. */
  predicate Tells(hash: string -> nat, snapshots: seq<string>)
  {
    && (forall x | x in snapshots :: hash(x) != 0)
    && (forall x, y | x in snapshots && y in snapshots && hash(x) == hash(y) :: x == y)
  }

  function HashOfLast(hash: string -> nat, s: seq<string>): nat
  {
    if s == [] then 0 else hash(s[|s| - 1])
  }

  lemma FoundOneMore(hash: string -> nat, found: seq<string>, x: string)
    requires Tells(hash, found + [x])
    ensures HashOfLast(hash, found + [x]) == hash(x)
    ensures Changes(found + [x]) == Changes(found) + if hash(x) == HashOfLast(hash, found) then [] else [x]
  {
    var longer := found + [x];
    assert longer[..|longer| - 1] == found && x in longer;
    if found != [] {
      assert longer[|longer| - 2] == found[|found| - 1];
    }
  }

  /** What the client received is what changed among `found`. */
  predicate Shows(hash: string -> nat, s: State, found: seq<string>)
  {
    s.live && Data(s.sent) == Changes(found) && s.lastHash == HashOfLast(hash, found)
  }

  lemma ShowsOneMore(hash: string -> nat, s: State, found: seq<string>, e: Event)
    requires Shows(hash, s, found) && Works(e) && Tells(hash, found + Finding(e))
    ensures Shows(hash, Next(hash, s, e), found + Finding(e))
  {
    if e.Tick? && e.enabled {
      FoundOneMore(hash, found, e.snapshot);
      DataOneMore(s.sent, Snapshot(e.ts, e.snapshot));
    } else {
      assert found + Finding(e) == found;
      DataOneMore(s.sent, if e.Ping? then Pong(e.payload) else Paused);
    }
  }

  /** The client receives exactly the changes: the snapshots found at the enabled ticks
      without their immediate repetitions. */
  lemma {:induction false} DataIsTheChanges(hash: string -> nat, events: seq<Event>)
    requires Smooth(events) && Tells(hash, Found(events))
    ensures Shows(hash, Run(hash, events), Found(events))
    decreases |events|
  {
    if events != [] {
      var before, e := events[..|events| - 1], events[|events| - 1];
      assert forall x | x in before :: x in events;
      assert forall x | x in Found(before) :: x in Found(events);
      DataIsTheChanges(hash, before);
      ShowsOneMore(hash, Run(hash, before), Found(before), e);
    }
  }

  /** After an enabled tick the client's last snapshot is the current one, two snapshots
      in a row differ, and it receives nothing that was not found. */
  lemma ClientIsCurrent(hash: string -> nat, events: seq<Event>)
    requires Smooth(events) && Tells(hash, Found(events))
    ensures var (data, found) := (Data(Run(hash, events).sent), Found(events));
            && (forall i | 0 < i < |data| :: data[i - 1] != data[i])
            && (data == [] <==> found == [])
            && (found != [] ==> data[|data| - 1] == found[|found| - 1])
            && (forall x :: x in data <==> x in found)
  {
    var found := Found(events);
    DataIsTheChanges(hash, events);
    assert Data(Run(hash, events).sent) == Changes(found);
    ChangesProperties(found);
  }

  /** The condition on the hash is needed: a snapshot that hashes to zero is never shown
      first, and of two with the same hash the second is never shown after the first. */
  lemma HashMustTell(hash: string -> nat, x: string, y: string, ts: nat)
    ensures hash(x) == 0 <==> Data(Run(hash, [Tick(true, x, ts, true, true)]).sent) == []
    ensures hash(x) == hash(y) && hash(x) != 0 ==>
              Data(Run(hash, [Tick(true, x, ts, true, true), Tick(true, y, ts, true, true)]).sent) == [x]
  {
    var tx, ty := Tick(true, x, ts, true, true), Tick(true, y, ts, true, true);
    RunOneMore(hash, [], tx);
    RunOneMore(hash, [tx], ty);
    assert [] + [tx] == [tx] && [tx] + [ty] == [tx, ty];
    DataOneMore([], Snapshot(ts, x));
    assert [] + [Snapshot(ts, x)] == [Snapshot(ts, x)];
  }

  /** The client is current after every smooth history over these snapshots. */
  ghost predicate AlwaysCurrent(hash: string -> nat, snapshots: seq<string>)
  {
    forall events | Smooth(events) && (forall x | x in Found(events) :: x in snapshots) ::
      Data(Run(hash, events).sent) == Changes(Found(events))
  }

  lemma FoundInTicks(x: string, y: string, ts: nat)
    ensures Found([Tick(true, x, ts, true, true)]) == [x] == Changes([x])
    ensures Found([Tick(true, x, ts, true, true), Tick(true, y, ts, true, true)]) == [x, y]
    ensures x != y ==> Changes([x, y]) == [x, y]
  {
    var tx, ty := Tick(true, x, ts, true, true), Tick(true, y, ts, true, true);
    assert [tx, ty][..1] == [tx] && [tx][..0] == [] && [x, y][..1] == [x];
  }

  lemma ZeroIsNeverShown(hash: string -> nat, snapshots: seq<string>, x: string)
    requires AlwaysCurrent(hash, snapshots) && x in snapshots
    ensures hash(x) != 0
  {
    var events := [Tick(true, x, 0, true, true)];
    HashMustTell(hash, x, x, 0);
    FoundInTicks(x, x, 0);
    assert Smooth(events) && Data(Run(hash, events).sent) == Changes(Found(events));
  }

  lemma TwinIsNeverShown(hash: string -> nat, snapshots: seq<string>, x: string, y: string)
    requires AlwaysCurrent(hash, snapshots) && x in snapshots && y in snapshots && hash(x) == hash(y)
    ensures x == y
  {
    var events := [Tick(true, x, 0, true, true), Tick(true, y, 0, true, true)];
    ZeroIsNeverShown(hash, snapshots, x);
    HashMustTell(hash, x, y, 0);
    FoundInTicks(x, y, 0);
    assert Smooth(events) && Data(Run(hash, events).sent) == Changes(Found(events));
  }

  /** And that is so exactly when the hash tells them apart and from zero. */
  lemma CurrentExactlyWhenToldApart(hash: string -> nat, snapshots: seq<string>)
    ensures AlwaysCurrent(hash, snapshots) <==> Tells(hash, snapshots)
  {
    if AlwaysCurrent(hash, snapshots) {
      forall x | x in snapshots ensures hash(x) != 0 {
        ZeroIsNeverShown(hash, snapshots, x);
      }
      forall x, y | x in snapshots && y in snapshots && hash(x) == hash(y) ensures x == y {
        TwinIsNeverShown(hash, snapshots, x, y);
      }
    }
    if Tells(hash, snapshots) {
      forall events | Smooth(events) && (forall x | x in Found(events) :: x in snapshots)
        ensures Data(Run(hash, events).sent) == Changes(Found(events))
      {
        DataIsTheChanges(hash, events);
      }
    }
  }

  lemma PausesStep(hash: string -> nat, s: State, e: Event)
    requires s.live && Works(e)
    ensures var s' := Next(hash, s, e);
            s'.live && Pauses(s'.sent) == Pauses(s.sent) + if e.Tick? && !e.enabled && !s.lastPaused then 1 else 0
  {
    match e
    case Tick(true, x, ts, _, _) => PausesOneMore(s.sent, Snapshot(ts, x));
    case Ping(payload, _) => PausesOneMore(s.sent, Pong(payload));
    case _ => PausesOneMore(s.sent, Paused);
  }

  /** Every maximal stretch of disabled ticks brings one `Paused` frame, at its first tick. */
  lemma {:induction false} OnePausePerStretch(hash: string -> nat, events: seq<Event>)
    requires Smooth(events)
    ensures var s := Run(hash, events);
            s.live && Pauses(s.sent) == Stretches(events).0 && s.lastPaused == Stretches(events).1
    decreases |events|
  {
    if events != [] {
      var before, e := events[..|events| - 1], events[|events| - 1];
      assert forall x | x in before :: x in events;
      OnePausePerStretch(hash, before);
      PausesStep(hash, Run(hash, before), e);
    }
  }

  /** The frames that an event is to send, after these findings and perhaps during a pause. */
  function Due(found: seq<string>, paused: bool, e: Event): seq<Frame>
  {
    match e
    case Tick(false, _, _, _, _) => if paused then [] else [Paused]
    case Tick(true, x, ts, _, _) => if found != [] && found[|found| - 1] == x then [] else [Snapshot(ts, x)]
    case Ping(payload, _) => [Pong(payload)]
    case _ => []
  }

  lemma SendsDue(hash: string -> nat, s: State, found: seq<string>, e: Event)
    requires Shows(hash, s, found) && Works(e) && Tells(hash, found + Finding(e))
    ensures Next(hash, s, e).sent == s.sent + Due(found, s.lastPaused, e)
  {
    var longer := found + Finding(e);
    assert forall y | y in found :: y in longer;
    assert e.Tick? && e.enabled ==> longer[|found|] == e.snapshot;
  }

  /** After any smooth history, what each next event sends: a disabled tick `Paused` if it
      begins a stretch, an enabled one the snapshot, with its time, if it is not the one
      found last, and a ping its own payload; nothing else sends anything. */
  lemma SendsExactly(hash: string -> nat, events: seq<Event>, e: Event)
    requires Smooth(events) && Works(e) && Tells(hash, Found(events) + Finding(e))
    ensures Run(hash, events + [e]).sent == Run(hash, events).sent + Due(Found(events), Stretches(events).1, e)
  {
    var longer := Found(events) + Finding(e);
    assert forall y | y in Found(events) :: y in longer;
    DataIsTheChanges(hash, events);
    OnePausePerStretch(hash, events);
    RunOneMore(hash, events, e);
    SendsDue(hash, Run(hash, events), Found(events), e);
  }

  /** The module says that resuming starts pushing again. At the tick that resumes, the
      client is told so exactly when the snapshot changed during the pause: otherwise
      nothing is sent and `Paused` remains the last thing it heard. */
  lemma ResumeIsSilentExactly(hash: string -> nat, events: seq<Event>, x: string, ts: nat)
    requires Smooth(events) && Tells(hash, Found(events) + [x]) && Stretches(events).1
    ensures var (before, after) := (Run(hash, events).sent, Run(hash, events + [Tick(true, x, ts, true, true)]).sent);
            var found := Found(events);
            after == if found != [] && found[|found| - 1] == x then before else before + [Snapshot(ts, x)]
  {
    SendsExactly(hash, events, Tick(true, x, ts, true, true));
  }

  // ── When things fail ─────────────────────────────────────────────────

  /** The same event, with every send succeeding. */
  function Repaired(e: Event): Event
  {
    match e
    case Tick(enabled, snapshot, ts, encodes, _) => Tick(enabled, snapshot, ts, encodes, true)
    case Ping(payload, _) => Ping(payload, true)
    case _ => e
  }

  function AllRepaired(events: seq<Event>): seq<Event>
    decreases |events|
  {
    if events == [] then [] else AllRepaired(events[..|events| - 1]) + [Repaired(events[|events| - 1])]
  }

  /** The send of this event, if it makes one, works. */
  predicate Delivers(e: Event)
  {
    match e
    case Tick(_, _, _, _, delivered) => delivered
    case Ping(_, delivered) => delivered
    case _ => true
  }

  /** A connection ends exactly at a close, at an error of reception, or at a send that was due and failed. */
  lemma EndsExactly(hash: string -> nat, s: State, e: Event)
    requires s.live
    ensures !Next(hash, s, e).live <==>
            e.Close? || e.RecvError? || (!Delivers(e) && Next(hash, s, Repaired(e)).sent != s.sent)
  {
  }

  /** A snapshot that could not be serialised counts as shown: finding it again sends nothing. */
  lemma UnencodedIsSkipped(hash: string -> nat, events: seq<Event>, x: string, ts: nat, ts': nat, delivered: bool)
    ensures Run(hash, events + [Tick(true, x, ts, false, delivered)] + [Tick(true, x, ts', true, true)]).sent ==
            Run(hash, events).sent
  {
    RunOneMore(hash, events, Tick(true, x, ts, false, delivered));
    RunOneMore(hash, events + [Tick(true, x, ts, false, delivered)], Tick(true, x, ts', true, true));
  }

  /** Whatever send fails, what was delivered is a prefix of what would have been, had all
      sends worked; and as long as the connection lives nothing is missing. */
  lemma {:induction false} DeliveredIsAPrefix(hash: string -> nat, events: seq<Event>)
    ensures var (s, ideal) := (Run(hash, events), Run(hash, AllRepaired(events)));
            s.sent <= ideal.sent && (s.live ==> s == ideal)
    decreases |events|
  {
    if events != [] {
      DeliveredIsAPrefix(hash, events[..|events| - 1]);
      RunOneMore(hash, AllRepaired(events[..|events| - 1]), Repaired(events[|events| - 1]));
    }
  }
}

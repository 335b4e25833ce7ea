/** Cycles as the daemon runs them: each tick reads both clipboards through
    the adapters' read filter, runs one cycle, and passes each write through
    the adapter's write guard. Sequences of ticks model successive timer
    ticks; their tool outcomes are parameters.
 */
module Runs {
  import opened Fingerprints
  import opened Adapter
  import opened Sync

  /** What the two paste tools returned on one tick. */
  datatype Observation = Observation(wayland: ReadOutcome, x11: ReadOutcome)

  /** The state after some ticks and the copy-tool invocations made, in order. */
  datatype Trace = Trace(state: SyncState, calls: seq<Write>)

  /** The writes that get past the write guard, i.e. reach the copy tool. */
  function Guarded(writes: seq<Write>, limit: int): (calls: seq<Write>)
    ensures |calls| <= |writes|
    ensures forall i :: 0 <= i < |calls| ==> calls[i] in writes && |calls[i].content| <= limit
    ensures forall wr :: wr in writes && |wr.content| <= limit ==> wr in calls
    ensures (forall i :: 0 <= i < |writes| ==> |writes[i].content| <= limit) ==> calls == writes
  {
    if writes == [] then []
    else
      var rest := Guarded(writes[1..], limit);
      match Guard(writes[0], limit)
      case Some(wr) => [wr] + rest
      case None => rest
  }

  /** One tick: read, cycle, guard. */
  function Tick(s: SyncState, o: Observation, limit: int): (t: Trace)
    ensures |t.calls| <= 1
    ensures forall i :: 0 <= i < |t.calls| ==> t.calls[i].content != [] && |t.calls[i].content| <= limit
    ensures t.calls == Cycle(s, Read(o.wayland, limit), Read(o.x11, limit)).writes
  {
    var w := Read(o.wayland, limit);
    var x := Read(o.x11, limit);
    var r := Cycle(s, w, x);
    Trace(r.state, Guarded(r.writes, limit))
  }

  /** Oversized clipboard content is treated exactly like a failed read,
      and a timeout exactly like any other failure. */
  lemma OversizedReadIsIgnored(s: SyncState, out: Content, o: ReadOutcome, limit: int)
    requires |out| > limit
    ensures Tick(s, Observation(Ok(out), o), limit) == Tick(s, Observation(Failed, o), limit)
    ensures Tick(s, Observation(o, Ok(out)), limit) == Tick(s, Observation(o, Failed), limit)
    ensures Tick(s, Observation(Timeout, o), limit) == Tick(s, Observation(Failed, o), limit)
    ensures Tick(s, Observation(o, Timeout), limit) == Tick(s, Observation(o, Failed), limit)
  {
  }

  /** With a limit of 10 bytes, an 11-byte Wayland clipboard is dropped: with
      X11 unreadable, nothing is written and the fingerprints stay as they
      were. */
  lemma OversizedScenario(s: SyncState)
    ensures Tick(s, Observation(Ok(seq(11, _ => 65 as Byte)), Failed), 10) == Trace(s, [])
  {
    var big := seq(11, _ => 65 as Byte);
    assert Read(Ok(big), 10) == [];
    QuietIffSettled(s, [], []);
  }

  /** The daemon over successive ticks, one observation per tick. */
  function Run(s: SyncState, obs: seq<Observation>, limit: int): (t: Trace)
    ensures |t.calls| <= |obs|
    ensures forall i :: 0 <= i < |t.calls| ==> t.calls[i].content != [] && |t.calls[i].content| <= limit
    decreases |obs|
  {
    if obs == [] then Trace(s, [])
    else
      var first := Tick(s, obs[0], limit);
      var rest := Run(first.state, obs[1..], limit);
      Trace(rest.state, first.calls + rest.calls)
  }

  /** Runs from states the cycle cannot tell apart make the same calls. */
  lemma {:induction false} AlikeRunsCallAlike(s: SyncState, t: SyncState, obs: seq<Observation>, limit: int)
    requires AlikeStates(s, t)
    ensures Run(s, obs, limit).calls == Run(t, obs, limit).calls
    decreases |obs|
  {
    if obs != [] {
      AlikeStatesWriteAlike(s, t, Read(obs[0].wayland, limit), Read(obs[0].x11, limit));
      AlikeRunsCallAlike(Tick(s, obs[0], limit).state, Tick(t, obs[0], limit).state, obs[1..], limit);
    }
  }

  /** A whole run makes the same tool calls whether the manager starts from
      the zero value or from the digest of the empty content. */
  lemma RunFromZeroValue(obs: seq<Observation>, limit: int)
    ensures Run(Initial(), obs, limit).calls == Run(SyncState(H([]), H([])), obs, limit).calls
  {
    AlikeRunsCallAlike(Initial(), SyncState(H([]), H([])), obs, limit);
  }

  /** Every call in a run carries what some tick read from the opposite
      clipboard. */
  lemma {:induction false} RunCarriesReads(s: SyncState, obs: seq<Observation>, limit: int, i: nat)
    requires i < |Run(s, obs, limit).calls|
    ensures exists j :: 0 <= j < |obs| && Carries(Run(s, obs, limit).calls[i], Read(obs[j].wayland, limit), Read(obs[j].x11, limit))
    decreases |obs|
  {
    var first := Tick(s, obs[0], limit);
    var rest := Run(first.state, obs[1..], limit);
    var calls := Run(s, obs, limit).calls;
    assert calls == first.calls + rest.calls;
    if i < |first.calls| {
      var w, x := Read(obs[0].wayland, limit), Read(obs[0].x11, limit);
      assert first.calls == Cycle(s, w, x).writes;
      assert calls[i] == Cycle(s, w, x).writes[i];
      assert Carries(calls[i], w, x);
    } else {
      var k := i - |first.calls|;
      assert calls[i] == rest.calls[k];
      RunCarriesReads(first.state, obs[1..], limit, k);
      var j :| 0 <= j < |obs[1..]| && Carries(rest.calls[k], Read(obs[1..][j].wayland, limit), Read(obs[1..][j].x11, limit));
      assert obs[1..][j] == obs[j + 1];
    }
  }

  /** Every paste tool succeeds and prints exactly the clipboard's bytes. */
  function Observe(c: Clipboards): Observation
  {
    Observation(Ok(c.wayland), Ok(c.x11))
  }

  /** What the engine sees of the clipboards after the read filter. */
  function Seen(c: Clipboards, limit: int): Clipboards
  {
    Clipboards(Read(Ok(c.wayland), limit), Read(Ok(c.x11), limit))
  }

  /** Ticks with nobody touching the clipboards except the daemon, whose
      copies all succeed: each tick reads the clipboards through the read
      filter, and afterwards the clipboards hold what passed the guard. */
  function Closed(s: SyncState, c: Clipboards, n: nat, limit: int): (t: Trace)
    ensures |t.calls| <= n
    ensures forall i :: 0 <= i < |t.calls| ==> t.calls[i].content != [] && |t.calls[i].content| <= limit
    decreases n
  {
    if n == 0 then Trace(s, [])
    else
      var first := Tick(s, Observe(c), limit);
      var rest := Closed(first.state, Apply(first.calls, c), n - 1, limit);
      Trace(rest.state, first.calls + rest.calls)
  }

  /** Clipboards whose filtered contents are settled stay put however many
      ticks run. */
  lemma {:induction false} SettledStaysPut(s: SyncState, c: Clipboards, n: nat, limit: int)
    requires Settled(s, Seen(c, limit).wayland, Seen(c, limit).x11)
    ensures Closed(s, c, n, limit) == Trace(s, [])
    decreases n
  {
    if n > 0 {
      QuietIffSettled(s, Seen(c, limit).wayland, Seen(c, limit).x11);
      assert Tick(s, Observe(c), limit) == Trace(s, []);
      SettledStaysPut(s, c, n - 1, limit);
    }
  }

  /** Copying what a tick read leaves clipboards whose filtered contents
      are what the successful copy would make of the filtered reads: the
      copied content was already within the limit. */
  lemma SeenAfterCopy(s: SyncState, c: Clipboards, limit: int)
    ensures var t := Tick(s, Observe(c), limit);
            Seen(Apply(t.calls, c), limit) == Apply(t.calls, Seen(c, limit))
  {
    var v := Seen(c, limit);
    CycleIsReference(s, v.wayland, v.x11);
    ReadIsIdempotent(Ok(c.wayland), limit);
    ReadIsIdempotent(Ok(c.x11), limit);
  }

  /** Left to itself the daemon settles after one tick: any number of ticks
      makes the first tick's call (at most one) and nothing more. Content
      over the limit is never copied, since it reads as empty. */
  lemma {:induction false} ClosedLoopSettles(s: SyncState, c: Clipboards, n: nat, limit: int)
    requires n >= 1
    ensures Closed(s, c, n, limit) == Tick(s, Observe(c), limit)
    ensures |Closed(s, c, n, limit).calls| <= 1
  {
    var t := Tick(s, Observe(c), limit);
    var v := Seen(c, limit);
    assert t.state == Cycle(s, v.wayland, v.x11).state;
    NoEcho(s, v.wayland, v.x11);
    SeenAfterCopy(s, c, limit);
    var c' := Apply(t.calls, c);
    SettledStaysPut(t.state, c', n - 1, limit);
    assert Closed(s, c, n, limit) == Trace(t.state, t.calls + []);
  }
}

/** One synchronisation cycle of the clipboard manager.

    The engine remembers one fingerprint per side: the digest of the content
    it last observed there. A cycle takes the two contents read this tick,
    pushes Wayland's content to X11 when Wayland changed, then pushes X11's
    content to Wayland when X11 changed, and returns the new fingerprints
    together with the writes it issued, in order.
 */
module Sync {
  import opened Fingerprints
  import opened Adapter

  /** The engine's memory between cycles (`lastWaylandHash`, `lastX11Hash`). */
  datatype SyncState = SyncState(lastWayland: Fingerprint, lastX11: Fingerprint)

  /** A freshly constructed manager: both fields hold the zero value, which
      is not the digest of any content, not even of the empty content. */
  function Initial(): (s: SyncState)
    ensures forall c :: H(c) != s.lastWayland && H(c) != s.lastX11
  {
    SyncState(Unset, Unset)
  }

  /** What a cycle leaves behind: the new fingerprints, and the calls of
      `set*Clipboard` it made, in the order it made them. */
  datatype Outcome = Outcome(state: SyncState, writes: seq<Write>)

  /** The contents of the two clipboards; inside a cycle, what the two
      reads returned. */
  datatype Clipboards = Clipboards(wayland: Content, x11: Content)

  /** The cycle's local variables part way through: the fields of the
      manager, the two working hashes, and the writes issued so far. */
  datatype Working = Working(last: SyncState, waylandHash: Fingerprint, x11Hash: Fingerprint, writes: seq<Write>)

  /** The Wayland-to-X11 half: runs when Wayland's digest differs from the
      remembered one and Wayland is not empty; writes to X11 only when the
      two sides differ, and remembers Wayland's digest either way. */
  function WaylandToX11(k: Working, w: Content): Working
  {
    if k.waylandHash != k.last.lastWayland && w != [] then
      var k1 :=
        if k.waylandHash != k.x11Hash then
          k.(last := k.last.(lastX11 := k.waylandHash),
             x11Hash := k.waylandHash,
             writes := k.writes + [Write(X11, w)])
        else k;
      k1.(last := k1.last.(lastWayland := k.waylandHash))
    else k
  }

  /** The X11-to-Wayland half, the mirror image, compared against the
      working X11 hash that the first half may just have overwritten. The
      update of the working Wayland hash is never read afterwards. */
  function X11ToWayland(k: Working, x: Content): Working
  {
    if k.x11Hash != k.last.lastX11 && x != [] then
      var k1 :=
        if k.x11Hash != k.waylandHash then
          k.(last := k.last.(lastWayland := k.x11Hash),
             waylandHash := k.x11Hash,
             writes := k.writes + [Write(Wayland, x)])
        else k;
      k1.(last := k1.last.(lastX11 := k.x11Hash))
    else k
  }

  /** A write that carries exactly the other side's content of this cycle. */
  predicate Carries(wr: Write, w: Content, x: Content)
  {
    match wr.to
    case X11 => wr.content == w
    case Wayland => wr.content == x
  }

  /** One cycle on the Wayland read `w` and the X11 read `x`. */
  function Cycle(s: SyncState, w: Content, x: Content): (r: Outcome)
    ensures |r.writes| <= 1
    ensures forall i :: 0 <= i < |r.writes| ==> r.writes[i].content != [] && Carries(r.writes[i], w, x)
    ensures r.writes != [] ==> r.state.lastWayland == r.state.lastX11 == H(r.writes[0].content)
    ensures r.writes == [] ==> r.state.lastWayland in {s.lastWayland, H(w)} && r.state.lastX11 in {s.lastX11, H(x)}
  {
    var k := X11ToWayland(WaylandToX11(Working(s, H(w), H(x), []), w), x);
    Outcome(k.last, k.writes)
  }

  /** The cycle's decision stated on content instead of digests: Wayland
      counts as changed when it is non-empty and its digest is not the
      remembered one, and likewise X11; a changed Wayland that differs from
      X11 wins; otherwise a changed X11 that differs from Wayland is pushed;
      otherwise nothing is written and each changed side is remembered. */
  function Reference(s: SyncState, w: Content, x: Content): Outcome
  {
    var wChanged := w != [] && H(w) != s.lastWayland;
    var xChanged := x != [] && H(x) != s.lastX11;
    if wChanged && w != x then
      Outcome(SyncState(H(w), H(w)), [Write(X11, w)])
    else if xChanged && x != w then
      Outcome(SyncState(H(x), H(x)), [Write(Wayland, x)])
    else
      Outcome(SyncState(if wChanged then H(w) else s.lastWayland,
                        if xChanged then H(x) else s.lastX11), [])
  }

  lemma CycleIsReference(s: SyncState, w: Content, x: Content)
    ensures Cycle(s, w, x) == Reference(s, w, x)
  {
  }

  /** Neither side shows content the engine has not already remembered. */
  predicate Settled(s: SyncState, w: Content, x: Content)
  {
    (w == [] || s.lastWayland == H(w)) && (x == [] || s.lastX11 == H(x))
  }

  /** A cycle is a no-op (no write, state unchanged) exactly when the
      clipboards are settled with respect to the state. */
  lemma QuietIffSettled(s: SyncState, w: Content, x: Content)
    ensures Cycle(s, w, x) == Outcome(s, []) <==> Settled(s, w, x)
  {
    CycleIsReference(s, w, x);
  }

  /** Steady state: when both digests match the remembered ones, the cycle
      writes nothing and keeps both fingerprints. */
  lemma SteadyState(s: SyncState, w: Content, x: Content)
    requires H(w) == s.lastWayland && H(x) == s.lastX11
    ensures Cycle(s, w, x) == Outcome(s, [])
  {
    QuietIffSettled(s, w, x);
  }

  /** The clipboards after the copy tools carried out `writes`, in order,
      successfully: each write replaces its destination clipboard and
      leaves the other one as it was. */
  function Apply(writes: seq<Write>, c: Clipboards): (c': Clipboards)
    ensures writes == [] ==> c' == c
    ensures |writes| == 1 && writes[0].to == X11 ==> c' == Clipboards(c.wayland, writes[0].content)
    ensures |writes| == 1 && writes[0].to == Wayland ==> c' == Clipboards(writes[0].content, c.x11)
    decreases |writes|
  {
    if writes == [] then c
    else
      var first :=
        match writes[0].to
        case X11 => c.(x11 := writes[0].content)
        case Wayland => c.(wayland := writes[0].content);
      Apply(writes[1..], first)
  }

  /** No echo: once the destination holds what the cycle wrote, the next
      cycle on those clipboards writes nothing back and changes nothing. */
  lemma NoEcho(s: SyncState, w: Content, x: Content)
    ensures var r := Cycle(s, w, x);
            var c := Apply(r.writes, Clipboards(w, x));
            Settled(r.state, c.wayland, c.x11) && Cycle(r.state, c.wayland, c.x11) == Outcome(r.state, [])
  {
    var r := Cycle(s, w, x);
    CycleIsReference(s, w, x);
    var c := Apply(r.writes, Clipboards(w, x));
    QuietIffSettled(r.state, c.wayland, c.x11);
  }

  /** Idempotence: when the cycle wrote nothing, running it again on the
      same clipboards writes nothing and changes nothing. */
  lemma RepeatIsQuiet(s: SyncState, w: Content, x: Content)
    requires Cycle(s, w, x).writes == []
    ensures Cycle(Cycle(s, w, x).state, w, x) == Outcome(Cycle(s, w, x).state, [])
  {
    NoEcho(s, w, x);
  }

  /** A side that changed to the other side's content is not written, but
      its fingerprint still moves to the digest of what it now holds. */
  lemma EqualSidesAreTracked(s: SyncState, w: Content, x: Content)
    requires w == x && w != []
    ensures Cycle(s, w, x).writes == []
    ensures Cycle(s, w, x).state == SyncState(H(w), H(x))
  {
    CycleIsReference(s, w, x);
  }

  /** Wayland first: when both sides changed to different non-empty
      content, Wayland's content is written to X11 and nothing flows back. */
  lemma WaylandWinsConflict(s: SyncState, w: Content, x: Content)
    requires w != [] && H(w) != s.lastWayland
    requires x != [] && H(x) != s.lastX11
    requires w != x
    ensures Cycle(s, w, x) == Outcome(SyncState(H(w), H(w)), [Write(X11, w)])
  {
    CycleIsReference(s, w, x);
  }

  /** After a cycle whose writes all succeeded, a side that had changed to
      non-empty content has been copied so that both clipboards agree. */
  lemma ChangeConverges(s: SyncState, w: Content, x: Content)
    requires (w != [] && H(w) != s.lastWayland) || (x != [] && H(x) != s.lastX11)
    ensures var c := Apply(Cycle(s, w, x).writes, Clipboards(w, x));
            c.wayland == c.x11
  {
    CycleIsReference(s, w, x);
  }

  /** On start-up nothing has been remembered, so content found on only one
      side is copied once to the other side. */
  lemma StartupReplicates(c: Content)
    requires c != []
    ensures Cycle(Initial(), c, []) == Outcome(SyncState(H(c), H(c)), [Write(X11, c)])
    ensures Cycle(Initial(), [], c) == Outcome(SyncState(H(c), H(c)), [Write(Wayland, c)])
  {
    CycleIsReference(Initial(), c, []);
    CycleIsReference(Initial(), [], c);
  }

  /** Content already identical on both sides at start-up is not re-pushed. */
  lemma StartupSameContent(c: Content)
    requires c != []
    ensures Cycle(Initial(), c, c) == Outcome(SyncState(H(c), H(c)), [])
  {
    CycleIsReference(Initial(), c, c);
  }

  /** The copy is not retried when it fails: the fingerprints advance as
      though the write had succeeded. If X11 kept its old non-empty content,
      the next cycle sees X11 as changed and copies that old content over
      the newer Wayland content. */
  lemma FailedX11WriteFlowsBack(s: SyncState, w: Content, x: Content)
    requires Cycle(s, w, x).writes == [Write(X11, w)]
    requires x != []
    ensures Cycle(Cycle(s, w, x).state, w, x).writes == [Write(Wayland, x)]
  {
    CycleIsReference(s, w, x);
    CycleIsReference(Cycle(s, w, x).state, w, x);
  }

  /** ... and if X11 was empty, the failed copy is simply lost: later cycles
      on the same clipboards do nothing. */
  lemma FailedX11WriteIsLost(s: SyncState, w: Content)
    requires Cycle(s, w, []).writes == [Write(X11, w)]
    ensures Cycle(Cycle(s, w, []).state, w, []) == Outcome(Cycle(s, w, []).state, [])
  {
    CycleIsReference(s, w, []);
    CycleIsReference(Cycle(s, w, []).state, w, []);
  }

  /** Two fingerprints the cycle cannot tell apart: equal, or the zero value
      against the digest of the empty content. */
  predicate Alike(a: Fingerprint, b: Fingerprint)
  {
    a == b || (a == Unset && b == H([]))
  }

  predicate AlikeStates(s: SyncState, t: SyncState)
  {
    Alike(s.lastWayland, t.lastWayland) && Alike(s.lastX11, t.lastX11)
  }

  /** States that differ only by the zero value standing where the digest of
      the empty content would be make the same writes and stay alike: the
      checks for empty content (main.go:207, 220) hide the difference. */
  lemma AlikeStatesWriteAlike(s: SyncState, t: SyncState, w: Content, x: Content)
    requires AlikeStates(s, t)
    ensures Cycle(s, w, x).writes == Cycle(t, w, x).writes
    ensures AlikeStates(Cycle(s, w, x).state, Cycle(t, w, x).state)
  {
    CycleIsReference(s, w, x);
    CycleIsReference(t, w, x);
  }

  /** In particular the first cycle writes the same whether the manager
      starts from the zero value or from the digest of the empty content. */
  lemma ZeroValueActsAsEmptyDigest(w: Content, x: Content)
    ensures Cycle(Initial(), w, x).writes == Cycle(SyncState(H([]), H([])), w, x).writes
  {
    AlikeStatesWriteAlike(Initial(), SyncState(H([]), H([])), w, x);
  }

  const Hello: Content := [104, 101, 108, 108, 111]

  /** Start with nothing remembered; Wayland holds "hello" and X11 is
      empty. The first cycle copies "hello" to X11 and remembers its digest
      for both sides; the second cycle, on "hello" twice, writes nothing. */
  lemma HelloScenario()
    ensures Cycle(Initial(), Hello, []) == Outcome(SyncState(H(Hello), H(Hello)), [Write(X11, Hello)])
    ensures Cycle(SyncState(H(Hello), H(Hello)), Hello, Hello) == Outcome(SyncState(H(Hello), H(Hello)), [])
  {
  }
}

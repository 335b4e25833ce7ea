# Clipboard bridge: sync cycle model

This project models the synchronisation engine of the Wayland/X11 clipboard
bridge daemon (`ClipboardManager` in `main.go`). It also proves properties
of that model.

- Every tick, the engine reads both clipboards through its endpoint adapters.
- It compares each side's SHA-256 fingerprint with the one it remembered.
  A side whose fingerprint changed and that is not empty gets copied to the
  other side, Wayland first. The copy only happens when the two sides differ.
- The adapters turn tool failures, timeouts and oversized content into the
  empty content. They also refuse to write content over the size limit.

Modules:

- `Fingerprints` (`fingerprint.dfy`): content as bytes. The fingerprint is an
  injective digest `H`, and `Unset` is the Go zero value the manager starts
  from.
- `Adapter` (`adapter.dfy`): the read filter `Read`, the write guard
  `Guard`, and the `Write` requests the engine issues.
- `Sync` (`sync.dfy`): the state `SyncState`, the cycle `Cycle` built from
  its two halves `WaylandToX11` and `X11ToWayland`, and an independent
  content-level `Reference` of the cycle's decision. It also holds the
  single-cycle and two-cycle properties.
- `Runs` (`runs.dfy`): one daemon tick (read filter, cycle, write guard), runs
  over many ticks, and the closed loop in which only the daemon touches the
  clipboards.

A write's outcome is ignored: `set*Clipboard` always returns `nil`. Both
fingerprints advance right after the call whether or not the copy tool
succeeded (main.go:210-216, 223-229). So a failed write is not retried.
`FailedX11WriteFlowsBack` shows that X11's older content then flows back
over the newer Wayland content on the next tick. `FailedX11WriteIsLost`
shows that the copy is simply lost when X11 was empty.

The fingerprints start as Go's zero value `""` (main.go:82-89), not as the
digest of the empty content. No 64-character hex digest can equal that
value, so the model starts from `Unset`. `RunFromZeroValue` shows that this
choice never changes the calls of a whole run, because the cycle skips empty
content (main.go:207, 220).

## Model

| member | source | states |
|---|---|---|
| `Fingerprints.H` | main.go:93-96 | a fingerprint is never the zero value the manager starts with |
| `Fingerprints.HInjective` | main.go:93-96 | equal fingerprints mean equal content (SHA-256 taken as collision-free) |
| `Adapter.Read` | main.go:107-120 | a read yields the empty content or exactly the tool's output within the limit; failures, timeouts and oversized output yield empty |
| `Adapter.ReadIsIdempotent` | main.go:157-170 | what the read filter admits passes it again unchanged |
| `Adapter.FailuresLookEmpty` | main.go:157-167 | a timeout, any other tool failure and oversized output are indistinguishable to the engine |
| `Adapter.Guard` | main.go:124-128 | the write guard passes a request to the tool unchanged exactly when its content is within the limit |
| `Sync.Initial` | main.go:82-89 | the fingerprints of a new manager equal the digest of no content, not even of the empty content |
| `Sync.Apply` | main.go:183-184 | a single successful copy (`xclip -i`, or `wl-copy` at main.go:133-134) replaces exactly its destination clipboard and leaves the other clipboard as it was |
| `Sync.Cycle` | main.go:198-233 | at most one write per cycle; a write carries the other side's non-empty read; after a write both fingerprints are the written content's digest; without a write each fingerprint is either kept or is its own side's digest |
| `Sync.CycleIsReference` | main.go:206-230 | the digest-comparing cycle agrees with the content-level decision: changed Wayland that differs wins, else changed X11 that differs, else no write and changed sides are remembered |
| `Sync.QuietIffSettled` | main.go:207-230 | a cycle writes nothing and keeps its state if and only if every non-empty side's digest is already remembered |
| `Sync.SteadyState` | main.go:207-220 | unchanged digests on both sides give no write and unchanged fingerprints |
| `Sync.NoEcho` | main.go:207-230 | once the destination holds what a cycle wrote, the next cycle writes nothing and changes nothing |
| `Sync.RepeatIsQuiet` | main.go:207-230 | a cycle that wrote nothing, repeated on the same clipboards, writes nothing and changes nothing |
| `Sync.EqualSidesAreTracked` | main.go:207-229 | a changed side equal to the other side is not written, yet its fingerprint moves to its digest |
| `Sync.WaylandWinsConflict` | main.go:207-221 | when both sides changed to different content, only Wayland's content goes to X11 and nothing flows back |
| `Sync.ChangeConverges` | main.go:207-230 | after a cycle whose writes succeed, a changed non-empty side leaves both clipboards equal |
| `Sync.StartupReplicates` | main.go:82-89 | from the zero-valued state, content on only one side is copied once to the other side |
| `Sync.StartupSameContent` | main.go:207-229 | from the zero-valued state, identical content on both sides is remembered but not re-pushed |
| `Sync.FailedX11WriteFlowsBack` | main.go:210-216 | a failed copy to X11 still advances the fingerprints, so X11's old content is copied to Wayland on the next cycle |
| `Sync.FailedX11WriteIsLost` | main.go:210-216 | a failed copy to an empty X11 is never retried |
| `Sync.AlikeStatesWriteAlike` | main.go:207-220 | states that differ only by the zero value standing for the digest of the empty content make the same writes and stay that way |
| `Sync.ZeroValueActsAsEmptyDigest` | main.go:207-220 | the first cycle writes the same from the zero value as from the digest of the empty content |
| `Sync.HelloScenario` | main.go:198-233 | "hello" on Wayland only is copied to X11 once; the next cycle on "hello" twice writes nothing |
| `Runs.Guarded` | main.go:175-178 | a write reaches the copy tool if and only if it was requested and is within the limit; all of them pass when all are within the limit |
| `Runs.Tick` | main.go:200-230 | a tick makes at most one tool call, with non-empty content within the limit, and the guard never drops a write of the cycle |
| `Runs.OversizedReadIsIgnored` | main.go:114-118 | oversized content and timeouts lead to the same tick as a failed read |
| `Runs.OversizedScenario` | main.go:114-118 | with a 10-byte limit, an 11-byte Wayland clipboard and an unreadable X11 clipboard, the tick writes nothing and keeps the state |
| `Runs.Run` | main.go:247-252 | over n ticks at most n tool calls are made, all non-empty and within the limit |
| `Runs.AlikeRunsCallAlike` | main.go:207-220 | runs from states that differ only by the zero value standing for the digest of the empty content make the same tool calls |
| `Runs.RunFromZeroValue` | main.go:82-89 | a whole run makes the same tool calls from the zero value as from the digest of the empty content |
| `Runs.RunCarriesReads` | main.go:210-223 | every call in a run carries what some tick read from the opposite clipboard |
| `Runs.Closed` | main.go:200-230 | n ticks of the closed loop, read filter and write guard included, make at most n tool calls, each non-empty and within the limit |
| `Runs.SettledStaysPut` | main.go:207-230 | clipboards whose filtered contents are settled stay put through any number of ticks |
| `Runs.SeenAfterCopy` | main.go:114-128 | after a tick's copy succeeds, the filtered clipboards are the copy applied to the filtered reads, since copied content was already within the limit |
| `Runs.ClosedLoopSettles` | main.go:200-230 | left to itself the daemon makes the first tick's call and nothing more, however many ticks run; oversized content reads as empty and is never copied |

## Left out

- External tool invocation (`wl-paste`, `wl-copy`, `xclip`, main.go:103, 133, 153, 183): this is operating-system I/O. A read is represented by its outcome `Ok(out)`, `Timeout` or `Failed`. A write is represented by the request that reaches the tool. The tool's success or failure is not an input, because the code ignores it.
- Command deadlines (main.go:100, 130, 150, 180): these are wall-clock behaviour. A read that hits the deadline is the `Timeout` outcome.
- SHA-256 and its hex formatting (main.go:94-95): these are library code. The digest is the injective constructor `Digest`. This takes the hash to be collision-free.
- Logging (`logf`, log lines in every operation): it has no effect on the state or on the writes.
- The ticker and signal loop, and closing the log file (main.go:236-263): this is concurrency and lifecycle code. Successive ticks appear only as the sequence of observations given to `Runs.Run`. Shutdown is the end of that sequence.
- Configuration loading and defaults (main.go:273-322), log-path expansion and directory creation (main.go:59-78), and the start-up tool check (main.go:324-345): these are filesystem and process work. The size limit is a parameter of any integer value.
- The dead store to the working Wayland hash (main.go:227) is kept in `X11ToWayland` and has no effect.
- Sync.NoEcho: assumes a read returns exactly the bytes the other tool last wrote. `wl-paste` is run without `-n` (main.go:103), and without that option it may add a newline to the text it prints. The echo write that can follow an X11-to-Wayland copy in practice is not modelled.
- Sync.ChangeConverges: rests on the same byte-exact round trip through the tools as `Sync.NoEcho`.
- Runs.Closed: rests on the same byte-exact round trip through the tools as `Sync.NoEcho`, and takes every paste tool run to succeed; failed reads appear only in `Runs.Run`.
- Runs.ClosedLoopSettles: rests on the same byte-exact round trip and successful paste tool runs as `Runs.Closed`.
- Runs.SettledStaysPut: rests on the same successful paste tool runs as `Runs.Closed`.

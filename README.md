# CEN motion-to-mail core, modelled in Dafny

CEN watches a webcam, detects motion by differencing successive grayscale
frames, and mails a notification through Gmail at most once per cooldown. This
project models the decision logic of that loop in three modules. Each foreign
library is replaced by an abstract input or an oracle.

- `Motion` (`motion.dfy`, from `cen/core/motion.py`) covers three things.
  - The `should_notify` throttle of a `MotionEvent`, a class whose only mutable
    field is `lastNotifiedAt`.
  - The no-frame branch of `encode_jpeg`.
  - The `MotionDetector` sampling loop, a class holding `prevGray`. A failed
    read is ignored. The first frame only primes the detector. Every later
    frame is compared with the stored one: the contours at or above the
    sensitivity are counted, and their areas are truncated and summed. The
    stored frame is then replaced, and an event is emitted when the sum is
    positive.
  - The vision library is the datatype `Vision`, two oracle functions: the
    grayscale conversion, and the contour areas of a frame pair. The JPEG
    encoder is the oracle `Codec`.
  - The loop methods `Aggregate`, `Step` and `DetectEvents` are proved against
    the pure functions `Qualifying`, `TruncatedSum`, `Sample` and `Scan`.
- `Cli` (`cli.dfy`, from `cen/cli/main.py`) covers two things.
  - The `--scopes` parsing of `login`: split on commas, strip, drop the blanks.
    Python's `split`, `strip` and `join` are defined exactly.
  - The throttle-and-attach loop of `monitor`. Each event the detector yields
    comes as a `Tick` carrying:
    - the clock reading of the throttle check (line 81);
    - the clock reading after the send (line 95);
    - whether the send raised.
  - The method `Monitor` is proved against the function `Dispatch`.
- `Gmail` (`gmail.dfy`, from `cen/core/gmail.py`) covers credential resolution.
  - A credential is the three flags `valid`, `expired` and `hasRefresh`.
  - The keyring, the token file and the three environment variables are slots
    of the class `Host`.
  - The token refresh and the local-server consent flow are oracles.
  - `GmailClient` holds the in-memory cache. Its methods `Login`,
    `EnsureLoggedIn` and `CredentialForSend` are proved against the functions
    `LoginOutcome` and `Resolve`.
- `Wrappers` (`wrappers.dfy`) defines `Option` and `Result`.

Behaviour of the code a reader might not expect, which the model keeps:

- A refresh that fails inside `login` raises (`RefreshError`). It does not fall
  back to a new authorization.
- `ensure_logged_in` returns a loaded credential without checking that it is
  valid.
- `monitor` compares with `max(1, min_interval_seconds)`, not with the interval
  itself.
- `last_sent_at` starts at 0, so an event is skipped only when the clock
  itself reads below the cooldown. `time.time()` never reads that low, so the
  first event of a run is always sent (`Cli.FirstEventSent`,
  `Cli.MonitorScenarioReal`); only a clock near its origin would skip it
  (`Cli.MonitorScenario`).
- No anomaly classification, running statistics or periodic summary exists in
  the code.

## Model

| member | source | states |
|---|---|---|
| Motion.MotionEvent.constructor | cen/core/motion.py:9-15 | the event keeps the given timestamp, frame, area and contour count; `last_notified_at` starts at 0 |
| Motion.MotionEvent.ShouldNotify | cen/core/motion.py:17-24 | with the field at 0: notify and set it to the timestamp; otherwise notify iff the timestamp is at least the interval after the field, and only then set it; a refusal leaves the field unchanged |
| Motion.Gate | cen/core/motion.py:17-24 | one call of `should_notify`: with the field at 0, notify and take the timestamp; else notify and take the timestamp iff it is at least the interval after the field; else refuse and keep the field |
| Motion.GateRun | cen/core/motion.py:17-24 | successive calls on one event, each seeing the field the previous call left; one answer per call |
| Motion.GateRunHead | cen/core/motion.py:17-24 | the first answer of a run of calls is the answer of one call |
| Motion.GateRunAt | cen/core/motion.py:17-24 | a run of calls continues from the field value the first call leaves |
| Motion.GateRunNoneTail | cen/core/motion.py:17-24 | a stretch of refusals stays a stretch of refusals in the run after the first call |
| Motion.GateRunFirstAfter | cen/core/motion.py:21-24 | after a real notification time, the first later notification comes at least the interval after it, because refusals keep the field |
| Motion.GateRunPairSpacing | cen/core/motion.py:17-24 | with non-zero timestamps, two consecutive notifications of a run are at least the interval apart |
| Motion.GateRunSpacing | cen/core/motion.py:17-24 | the throttle over all pairs of consecutive notifications, and for the first notification after a real previous one |
| Motion.MotionEvent.EncodeJpeg | cen/core/motion.py:26-31 | an event without a frame gives (False, empty) and never calls the encoder; success means the encoder's own result; a failure never carries bytes |
| Motion.MotionDetector.constructor | cen/core/motion.py:35-41 | the sensitivity is stored; no frame is stored yet |
| Motion.Qualifying | cen/core/motion.py:62-66 | the qualifying contours are exactly the areas at or above the sensitivity, and no more of them than there are areas |
| Motion.TruncatedSum | cen/core/motion.py:65 | the sum of truncated areas is never negative |
| Motion.QualifyingAppend | cen/core/motion.py:62-66 | one more contour adds itself to the qualifying list exactly when it reaches the sensitivity |
| Motion.TruncatedSumAppend | cen/core/motion.py:65 | one more area adds its truncation to the sum |
| Motion.TruncatedSumPositive | cen/core/motion.py:65-68 | the truncated sum is positive iff some area is at least 1 |
| Motion.Aggregate | cen/core/motion.py:60-66 | the loop's list is the qualifying contours in order, and its total is their truncated sum |
| Motion.AggregateExample | cen/core/motion.py:60-66 | areas 600, 700, 100 at sensitivity 500 give two qualifying contours with a total of 1300 |
| Motion.Sample | cen/core/motion.py:44-78 | one iteration: a failed read changes nothing and emits nothing; with nothing stored the grayscale frame is stored and nothing is emitted; otherwise the qualifying contours of the pair are aggregated, the new grayscale frame is stored, and an event with the read's frame and clock reading, the truncated sum and the contour count is emitted iff the sum is positive |
| Motion.Scan | cen/core/motion.py:43-78 | the events of successive iterations over the reads, in order, each iteration starting from the frame the previous one stored |
| Motion.FinalPrev | cen/core/motion.py:43-78 | the stored grayscale frame after successive iterations over the reads |
| Motion.Captures | cen/core/motion.py:45-48 | the reads that delivered a frame are exactly the captured ones among the samples |
| Motion.ScanSplit | cen/core/motion.py:43-78 | running the loop over two batches equals running it over their concatenation; the stored frame is the whole state carried between them |
| Motion.ScanSingle | cen/core/motion.py:44-78 | a run over one read is one loop iteration |
| Motion.ScanSnoc | cen/core/motion.py:44-78 | a run over one more read is the run so far followed by one iteration from the frame it left stored |
| Motion.FailedReadsInert | cen/core/motion.py:45-48 | failed reads neither emit events nor change the stored frame: a run equals the run over its captured frames alone |
| Motion.EventsBoundedByFrames | cen/core/motion.py:50-53 | at most one event per captured frame; starting with nothing stored, strictly fewer events than captured frames, since the first frame only primes the detector |
| Motion.EventsArePositive | cen/core/motion.py:68-78 | every emitted event carries its captured frame and the clock reading of that capture, a positive motion area and at least one contour |
| Motion.CompareEmitsIff | cen/core/motion.py:55-72 | a compared pair emits iff some contour reaches the sensitivity and is at least 1 in area; the stored frame is replaced either way |
| Motion.EventData | cen/core/motion.py:9-15 | the data of a list of events, position by position |
| Motion.EventDataAppend | cen/core/motion.py:72-78 | appending an event appends its data |
| Motion.MotionDetector.Step | cen/core/motion.py:44-78 | one iteration: the new stored frame is that of `Sample`, and a fresh event with an unset notification time is returned exactly when `Sample` emits, carrying its data |
| Motion.MotionDetector.DetectEvents | cen/core/motion.py:43-78 | the events yielded over the samples are those of `Scan`, in order, and the stored frame ends as `FinalPrev` |
| Motion.MotionDetector.Close | cen/core/motion.py:80-82 | the capture device is released once more |
| Cli.IsSpace | cen/cli/main.py:26 | the characters `str.strip()` removes: space, tab to carriage return, the separators U+001C to U+001F, U+0085, U+00A0, U+1680, U+2000 to U+200A, U+2028, U+2029, U+202F, U+205F and U+3000 |
| Cli.Split | cen/cli/main.py:26 | `split(",")` never returns an empty list |
| Cli.SplitCommaFree | cen/cli/main.py:26 | no piece of a split contains a comma |
| Cli.JoinCons | cen/cli/main.py:26 | joining a piece in front of others puts one comma between them |
| Cli.JoinExtend | cen/cli/main.py:26 | lengthening the first piece lengthens the joined text by that character |
| Cli.JoinSplit | cen/cli/main.py:26 | joining the pieces of a split with commas gives back the text |
| Cli.SplitPrefix | cen/cli/main.py:26 | a comma-free prefix becomes part of the first piece |
| Cli.SplitConcat | cen/cli/main.py:26 | splitting `a,b` gives the pieces of `a` and then those of `b` |
| Cli.SplitConcatStep | cen/cli/main.py:26 | the step of that induction: one more leading character |
| Cli.SplitConcatAux | cen/cli/main.py:26 | the inductive proof of `SplitConcat` |
| Cli.SplitJoin | cen/cli/main.py:26 | splitting the comma-join of comma-free pieces gives the pieces back |
| Cli.JoinUnfold | cen/cli/main.py:26 | joining at least two pieces is the first, a comma, then the join of the rest |
| Cli.SplitComma | cen/cli/main.py:26 | a leading comma gives a leading empty piece |
| Cli.TrimLeft | cen/cli/main.py:26 | `lstrip` never lengthens its text |
| Cli.TrimRight | cen/cli/main.py:26 | `rstrip` never lengthens its text |
| Cli.TrimLeftSpec | cen/cli/main.py:26 | `lstrip` keeps a suffix that does not start with whitespace, and removes only whitespace |
| Cli.TrimRightSpec | cen/cli/main.py:26 | `rstrip` keeps a prefix that does not end with whitespace, and removes only whitespace |
| Cli.Strip | cen/cli/main.py:26 | `strip` leaves no whitespace at either end and never lengthens its text |
| Cli.StripSlice | cen/cli/main.py:26 | a stripped piece is a contiguous slice of the original, and everything removed around it is whitespace |
| Cli.StripStripped | cen/cli/main.py:26 | a text without whitespace at its ends strips to itself |
| Cli.KeepScopes | cen/cli/main.py:26 | the kept pieces are non-empty and stripped, and no more than the pieces given |
| Cli.KeepScopesConcat | cen/cli/main.py:26 | filtering distributes over concatenation, so order is kept |
| Cli.KeepScopesTidy | cen/cli/main.py:26 | pieces already non-empty and stripped are kept unchanged |
| Cli.KeepScopesCommaFree | cen/cli/main.py:26 | stripping comma-free pieces leaves them comma-free |
| Cli.ParseScopes | cen/cli/main.py:26 | every parsed scope is non-empty, comma-free and stripped |
| Cli.ParseScopesSingle | cen/cli/main.py:26 | text without a comma gives its stripped self, or nothing when blank |
| Cli.ParseScopesConcat | cen/cli/main.py:26 | the scopes of `a,b` are those of `a` followed by those of `b` |
| Cli.ParseJoinedScopes | cen/cli/main.py:26 | a list of non-empty, comma-free, stripped scopes survives joining and parsing |
| Cli.Cooldown | cen/cli/main.py:81 | the effective spacing is at least 1 and at least the interval, and equals the interval when that is 1 or more |
| Cli.Dispatch | cen/cli/main.py:78-97 | the loop from an event on: an event checked less than `max(1, min_interval_seconds)` after `last_sent_at` is skipped; otherwise its attachment is built and the mail sent; a send that raises ends the loop; after a send that returns, `last_sent_at` is the clock reading after it |
| Cli.AttachmentFor | cen/cli/main.py:83-87 | an attachment is passed iff snapshots are on, the event has a frame and encoding succeeds; it is then `snapshot.jpg` with the encoded bytes as `image/jpeg` |
| Cli.Monitor | cen/cli/main.py:78-100 | the send calls and the way the loop ends are those of `Dispatch` from `last_sent_at = 0`; the detector is closed exactly once, whether the loop ends by interrupt or by a raising send |
| Cli.SendsStep | cen/cli/main.py:83-95 | an event outside the cooldown whose send returns is sent, and the loop continues with `last_sent_at` at its send time |
| Cli.SendsSkip | cen/cli/main.py:81-82 | an event inside the cooldown is skipped without any send and leaves `last_sent_at` unchanged |
| Cli.SendsCalls | cen/cli/main.py:80-94 | every send is for a later event of the sequence, with that event's clock readings and the attachment built for it |
| Cli.SendsOrder | cen/cli/main.py:79-97 | sends follow the event order; every send but the last returned; the run ends on a raise iff the last send raised |
| Cli.SendsFirst | cen/cli/main.py:78-82 | the first send is at least the cooldown after the starting `last_sent_at`, and every event before it, or every event when nothing is sent, fell inside the cooldown |
| Cli.SendsPair | cen/cli/main.py:81-95 | each send is checked at least the cooldown after the previous send finished, and every event between them fell inside that cooldown |
| Cli.SendsTail | cen/cli/main.py:81-82 | after the last send of a run that did not end on a raise, every remaining event fell inside the cooldown |
| Cli.SendsSpacedByCooldown | cen/cli/main.py:78-95 | with a clock that does not run backwards within an event, consecutive sends are at least `max(1, min_interval_seconds)` apart, at the checks and at the sends |
| Cli.FirstEventSent | cen/cli/main.py:78-81 | from `last_sent_at = 0`, the first event checked at a time of at least the cooldown is the first one sent |
| Cli.DispatchIntervalFloor | cen/cli/main.py:81 | any interval of 1 or less behaves exactly as an interval of 1 |
| Cli.MonitorScenario | cen/cli/main.py:78-95 | with interval 60 and events at 0, 10 and 70, only the event at 70 is sent (a clock reading below the cooldown at the first check skips that event) |
| Cli.MonitorScenarioReal | cen/cli/main.py:78-95 | with interval 60 and events at T, T + 10 and T + 70 for a real clock reading T (at least the cooldown), the first and the third are sent and the second is skipped |
| Gmail.Revive | cen/core/gmail.py:35-36 | a deserialized credential that is expired and has a refresh token is refreshed, a failed refresh giving None; any other is kept as it is |
| Gmail.Decode | cen/core/gmail.py:33-39 | a slot holding a credential is deserialized and revived; an empty or malformed slot gives None instead of an exception |
| Gmail.LoadFromKeyring | cen/core/gmail.py:28-39 | a credential is returned iff the keyring works, holds a credential, and the refresh (when one is needed) succeeds; otherwise None, never an exception |
| Gmail.LoadFromFile | cen/core/gmail.py:48-57 | a credential is returned iff the file exists, holds a credential, and the refresh (when one is needed) succeeds; otherwise None |
| Gmail.FirstSet | cen/core/gmail.py:64 | the first set slot, with all earlier ones unset; unset only when every slot is |
| Gmail.LoadFromEnv | cen/core/gmail.py:63-74 | a credential is returned iff the chosen variable holds a credential and the refresh (when one is needed) succeeds; otherwise None |
| Gmail.EnvToken | cen/core/gmail.py:64 | the `or` chain over the three variables: the first one that is set and non-empty |
| Gmail.EnvTokenOrder | cen/core/gmail.py:64 | `CEN_GMAIL_TOKEN_JSON` is used when set, else `GMAIL_AUTHORIZED_USER`, else `GMAIL_TOKEN_JSON` |
| Gmail.LoadRefreshesIff | cen/core/gmail.py:35-36 | a loaded credential is refreshed iff it is expired and has a refresh token; otherwise it is the stored one |
| Gmail.LoadFrom | cen/core/gmail.py:89-92 | the loader of the chosen backend: the keyring, or the file |
| Gmail.LoadedNeedsNoRefresh | cen/core/gmail.py:28-74 | when refreshes give unexpired credentials, no loader returns a credential that still needs a refresh |
| Gmail.Saved | cen/core/gmail.py:41-61 | a save for the keyring writes the keyring when it works and the token file otherwise; a save for the file writes the file |
| Gmail.WrittenTo | cen/core/gmail.py:177-180 | the slot a save for the chosen backend actually writes |
| Gmail.SaveLoadRoundTrip | cen/core/gmail.py:41-61 | loading from where a save wrote gives back the saved credential, and the save changes that one slot only |
| Gmail.KeyringFallback | cen/core/gmail.py:41-46 | with the keyring unavailable, a keyring save writes the token file instead and does not raise; a later keyring load still finds nothing |
| Gmail.ScanPorts | cen/core/gmail.py:166-175 | the ports in order: an OSError from the flow on a port (a taken port, or any other I/O failure, such as a failed token exchange after consent) moves on to the next, a granted credential ends the scan, any other exception ends it with that exception; with no port left, the "Use --console" error |
| Gmail.ScanPortsAllBusy | cen/core/gmail.py:166-175 | the scan fails with the "Use --console" error iff the flow raised an OSError on every candidate port |
| Gmail.ScanPortsFirstFree | cen/core/gmail.py:166-173 | the first port on which the flow did not raise an OSError decides the outcome: its credential, or the flow's own exception |
| Gmail.AuthorizeLocalServer | cen/core/gmail.py:164-175 | the port loop tries 8080, 8081, 8082, 8090, 9000, 9001, 9090, 9091 in order, moves on only after an OSError, and fails with the "Use --console" error iff every port raised one |
| Gmail.Preloaded | cen/core/gmail.py:87-92 | the credential `login` starts from: none under `force`, else the chosen backend's |
| Gmail.Obtain | cen/core/gmail.py:94-175 | a valid credential is reused; an invalid one that is expired with a refresh token is refreshed, a failed refresh raising; otherwise, or with none, the port scan of the consent flow decides |
| Gmail.LoginOutcome | cen/core/gmail.py:87-175 | `login` without the console flow: the preloaded credential, then `Obtain` |
| Gmail.ObtainedResult | cen/core/gmail.py:182 | the credential `login` returns, or the exception it raises |
| Gmail.LoginStores | cen/core/gmail.py:177-182 | only a refreshed or newly obtained credential is saved, to the chosen backend; a reused one or a failure saves nothing |
| Gmail.LoginForceIgnoresStores | cen/core/gmail.py:87-98 | under `force` no store is read: the outcome is the consent flow's, whatever the stores hold |
| Gmail.LoginLoadedCases | cen/core/gmail.py:94-182 | a valid loaded credential is returned and nothing is saved; an invalid one needing a refresh is refreshed and saved, or the failed refresh raises and nothing is saved |
| Gmail.LoginOwnRefreshUnreachable | cen/core/gmail.py:94-98 | when refreshes give unexpired credentials, an invalid loaded credential always goes to the consent flow, because the loader already refreshed it |
| Gmail.Resolve | cen/core/gmail.py:184-197 | a valid cache is returned unchanged; else the environment's credential, else the backend's, else `login` without force; the credential it ends with is returned and cached, only one from `login` is saved, and an exception from `login` leaves cache and stores alone |
| Gmail.ResolveOrder | cen/core/gmail.py:184-197 | a valid cache is returned as is; otherwise the environment's credential, else the backend's, else a new login; there is no validity check after the cache; a success is cached; only a login result is saved |
| Gmail.ResolveIdempotent | cen/core/gmail.py:184-197 | once resolution has produced a valid credential, resolving again returns it and changes nothing |
| Gmail.GmailClient.constructor | cen/core/gmail.py:21-26 | a new client has an empty cache |
| Gmail.GmailClient.SaveToKeyring | cen/core/gmail.py:41-46 | the keyring receives the credential when it works, otherwise the token file does, and the other slot is unchanged |
| Gmail.GmailClient.SaveToFile | cen/core/gmail.py:59-61 | the token file receives the credential and nothing else changes |
| Gmail.GmailClient.Login | cen/core/gmail.py:76-182 | the result and the stores afterwards are those of `LoginOutcome`: load unless forced, reuse when valid, refresh when expired with a refresh token, else the port scan; only a new credential is saved |
| Gmail.GmailClient.EnsureLoggedIn | cen/core/gmail.py:184-197 | the result, the cache and the stores afterwards are those of `Resolve` |
| Gmail.GmailClient.CredentialForSend | cen/core/gmail.py:210 | any cached credential, valid or not, is used unchanged; only an empty cache triggers resolution, with the keyring backend |

## Left out

- The console login branch (cen/core/gmail.py:102-163). It is socket binding, a threaded callback server, and a queue with a five-minute timeout.
- The OAuth library, `Credentials` serialisation, the keyring and the Gmail service are not modelled. A credential is three flags, a stored slot is unset, a credential or malformed text, and the refresh and the consent flow are oracles.
- The client id, secret and scopes given to the OAuth flow, and the `open_browser` and `login_hint` options, do not influence any decision modelled here.
- Message construction in `send_email` (cen/core/gmail.py:213-226) and the mail send itself are not modelled. A send is the `sendOk` flag of its `Tick`.
- A failing write of the token file is not modelled: `SaveToFile` always succeeds.
- OpenCV capture, grayscale conversion, difference, threshold, contour extraction and JPEG encoding are oracles. Opening the device and the `RuntimeError` on failure (cen/core/motion.py:38-40) are device I/O and are left out. `releases` counts `close` calls.
- `time.sleep(0.1)` after a failed read is left out.
- Clock readings are integers taken as inputs. Float time is not modelled. The event timestamp (`time.time()` at line 74) is the clock reading attached to its `Captured` read.
- The generator of `detect_events` is modelled as a finite batch of reads. In the same way, `monitor` consumes a finite sequence of events. Its end stands for the `KeyboardInterrupt`. Laziness and the interleaving of detection and sending are not modelled.
- The vision and codec oracles are deterministic functions.
- The initial `ensure_logged_in` call in `monitor` (cen/cli/main.py:73) and the construction of the client and detector are not part of `Cli.Monitor`. They are modelled on their own as `Gmail.GmailClient.EnsureLoggedIn` and the constructors.
- Whitespace for `strip` is the fixed list of characters Python treats as whitespace. Unicode database lookups are not modelled.
- Cli.SendsSpacedByCooldown: it assumes the clock reading after a send is no earlier than the one before it, since the wall clock can be set back.
- Motion.GateRunPairSpacing: it states the throttle over successive calls on one event with varying timestamps. The monitor loop itself never calls `should_notify`, and each event is created with an unset field.
- Gmail.ResolveOrder: the refresh oracle is a function of the credential's flags, so when a backend load fails because its refresh failed, the second refresh that `login` attempts (cen/core/gmail.py:195, through its load at lines 89-92) repeats that outcome; in the library a second refresh can succeed, and the clause that the result is that of the consent flow rests on the repetition. `Gmail.LoginOutcome` states the `login` step on its own.
- Gmail.KeyringFallback: one `keyringUp` flag stands for both `keyring.get_password` and `keyring.set_password`; in the library one can fail while the other works, and the clause that a later keyring load finds nothing rests on the shared flag.
- Gmail.ResolveIdempotent: `valid` and `expired` are fixed flags of a credential; in the library they depend on the clock, so the second call returns the cached credential only while that token has not expired.
- The `login`, `export-token`, `test-email` and other command bodies of cen/cli/main.py are out of scope, except the scope parsing at line 26.
- Anomaly classification, running statistics and a periodic summary do not appear in the source files, so they are not modelled.

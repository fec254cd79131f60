# discord-bot-copilot core, modelled in Dafny

The bot (`main.go`) is mostly glue around the Discord gateway and a Lavalink
playback server. This project models its three pieces of sequential logic
and proves what they do:

- **The voice recorder** (`handleVoice`, `createPionRTPPacket`). It drains a
  stream of Discord voice packets. On an SSRC's first packet it opens one Ogg
  writer, named `"<ssrc>.ogg"`, at 48 kHz and 2 channels. Each packet becomes
  an RTP packet: the fixed header of section 5.1 of RFC 3550 with version 2
  and Discord's dynamic payload type 0x78. It is written to its own SSRC's writer. When the stream
  ends, every writer is closed. A failed write is only reported. A failed
  creation makes the loop return at once, before the stream is drained and
  without closing anything.
  `Recorder.HandleVoice` is a method with the Go function's two loops: the
  receive loop with its early return, and the close loop. That loop visits
  Go's map in an unspecified order, so the model picks each writer with `:|`.
  The method returns the writer-library calls it made (`Effect`s) and the
  number of packets it took. It is proved against `Recorder.Consume`, the
  state after `n` packets, and the properties are lemmas about `Consume`.
  The writer library is not modelled. Whether each of its calls succeeds is
  an input: `createOk[i]` and `writeOk[i]` hold the results for packet `i`.
  In the bot as written, `handleVoice` is never reached: its only call site,
  at the end of `joinVoice` (main.go:290), is commented out. The model
  describes what the function does when called.
- **The command router** (`multiCommand`, `music`, `playMusic`'s argument
  parsing, `setPrefix`, and the two handler tables). Messages are cut at
  every single space, exactly like Go's `strings.Split(content, " ")`. Only
  `HasPrefix` looks at the start of the message; token 1 is the verb and
  token 2 the music sub-verb. The play query is field 4 of
  `strings.SplitN(content, " ", 4)`. Each routing step reads one token too far
  for some messages: `multiCommand` reads `message[1]` with no length check
  at all (main.go:184), and `music` and `playMusic` check one token short
  (main.go:344, :367) before reading `message[2]` and `message[3]`. Those
  reads panic in Go, and here they
  are the explicit outcomes `IndexFault` and `PlayIndexFault`. The prefix is
  the mutable field of class `Commands.Bot`. `Bot.SetPrefix` updates it, and
  `Bot.MultiCommand` runs the dispatch together with the handler it selects.
- **The voice-channel lookup** (`findMembersChannel`). It scans the cached
  guild's voice states and returns the channel of the first one whose user id
  equals the given id, ignoring case. It returns `""` when there is no match
  or the guild is not cached.

Files: `types.dfy` (fixed-width integers), `seqs.dfy` (general facts about
slicing and concatenating sequences), `text.dfy` (the `strings`/`fmt`
behaviour the code relies on), `rtp.dfy`, `recorder.dfy`, `commands.dfy`,
`voice.dfy`.

Behaviour of the code that the model keeps:

- Commands are split on single spaces, not on whitespace, so a double space
  gives an empty verb.
- The prefix is never checked as a separate token: `!cx ping` runs `ping`.
- Short messages panic instead of getting a fallback reply.
- A creation failure leaves the writers already opened unclosed.

## Model

| member | source | states |
|---|---|---|
| `Rtp.CreatePionRtpPacket` | main.go:162-174 | The RTP packet has version 2, payload type 0x78, and no padding, extension, marker or CSRCs. Its sequence number, timestamp, SSRC and payload are the packet's own, unchanged. |
| `Rtp.VoiceFrameIsTranslation` | main.go:162-174 | Every packet with that fixed header is the translation of exactly one voice packet, so the translation is a bijection. |
| `Text.Split` | main.go:182 | `strings.Split(s, " ")` always yields at least one piece. |
| `Text.JoinSplit` | main.go:182 | Joining the pieces with single spaces gives back the message. |
| `Text.SplitPiecesHaveNoSpace` | main.go:182 | No piece contains a space. |
| `Text.SplitJoin` | main.go:182 | Splitting the join of a non-empty list of space-free words gives back the list. |
| `Text.SplitSingleIffNoSpace` | main.go:182-184 | A message is a single piece exactly when it contains no space. |
| `Text.SplitNAgreesWithSplit` | main.go:365 | `SplitN(s, " ", n)` has min(n, pieces) pieces and matches `Split` on all but the last. The last piece is the rest of the split joined back, internal spaces included. |
| `Text.JoinSplitN` | main.go:365 | Joining the pieces of `SplitN` gives back the message. |
| `Text.HasPrefixSplits` | main.go:180 | `HasPrefix(s, p)` holds only when `s` is `p` followed by the rest of `s`. |
| `Text.HasPrefixOfAppend` | main.go:180 | Conversely, `p` followed by anything has the prefix `p`. |
| `Text.SplitNLastIsSuffix` | main.go:365 | The last piece of `SplitN(s, " ", n)` is the end of `s`, verbatim. |
| `Text.EqualFold` | main.go:461 | Strings that fold equal have the same length, and every string folds equal to itself. |
| `Text.Decimal` | main.go:218 | `%d` renders a non-empty digit string with no leading zero except for 0 itself. |
| `Text.ParseDecimalOfDecimal` | main.go:218 | Reading the rendered digits back gives the number. |
| `Text.DecimalInjective` | main.go:218 | Distinct numbers render differently. |
| `Text.Fold` | main.go:461 | Case folding maps each upper-case ASCII letter to the lower-case letter 32 code points above it and leaves every other character unchanged, so no result is upper case. |
| `Recorder.FileNameParts` | main.go:218 | `FileName` is the SSRC's decimal digits, which read back as the SSRC, followed by `.ogg`. |
| `Recorder.StepExtends` | main.go:215-230 | One iteration of the receive loop (`Step`): after giving up it changes nothing. Otherwise it appends one or two calls to those made so far, keeps every SSRC binding, binds at most the packet's own SSRC, and moves the next writer id on by the number of new bindings. |
| `Recorder.ConsumeCounts` | main.go:214-231 | After `n` packets (`Consume`), the next writer id equals the number of writers, with at most one writer and at most two calls per packet. |
| `Recorder.FileNameInjective` | main.go:218 | Two SSRCs with the same `"<ssrc>.ogg"` file name are the same SSRC. |
| `Recorder.WriterIdsDistinct` | main.go:213-231 | While packets are received: different SSRCs map to different writers, every writer id bound or used is below the next fresh id, and nothing has been closed. |
| `Recorder.FilesOnlyGrow` | main.go:215-223 | Once a writer is bound to an SSRC, it is never rebound or removed. |
| `Recorder.WritersAreForSeenSources` | main.go:214-224 | Until the loop gives up, the SSRCs with a writer are exactly the SSRCs of the packets taken so far. An SSRC with no packets gets no file. |
| `Recorder.AbortsIffCreationFails` | main.go:216-222 | The loop gives up exactly when the writer creation for some SSRC's first packet failed. |
| `Recorder.AbortIsFinal` | main.go:219-221 | After giving up, later packets change nothing. |
| `Recorder.WritesGoToOwnSource` | main.go:215-227 | Every write goes to the writer bound to the SSRC of the written frame, and that frame has the fixed voice header. |
| `Recorder.CreatedOncePerSource` | main.go:215-224 | Every SSRC with a writer had exactly one creation, named `"<ssrc>.ogg"` at 48000 Hz and 2 channels. No two creation attempts, the failed one included, name the same file, and a failed attempt ends the loop. |
| `Recorder.EveryPacketWritten` | main.go:225-230 | A failed write does not stop the loop: until it gives up, each packet taken has been written exactly once. |
| `Recorder.WriteResultsIgnored` | main.go:227-230 | Write results have no influence on the writers created, the writer ids, when the loop gives up, or how many calls are made. |
| `Recorder.PerSourceArrivalOrder` | main.go:214-231 | Until the loop gives up, each SSRC's writer has received exactly that SSRC's packets, translated, in arrival order, with nothing from other sources. |
| `Recorder.HandleVoice` | main.go:212-237 | The calls made follow `Consume`. On a creation failure the loop stops right after the first failing packet and closes nothing. Otherwise it takes every packet, then closes each writer exactly once. No write ever follows a close. |
| `Recorder.CloseAll` | main.go:233-236 | The final loop closes each writer of the map exactly once, and closes nothing else. |
| `Commands.CommandTable` | main.go:45-53 | The top-level table has the seven names `ping`, `prefix`, `join`, `disconnect`, `avatar`, `help` and `music`, each selecting a different handler. |
| `Commands.MusicTable` | main.go:56-61 | The music table has the four names `play`, `pause`, `stop` and `resume`, each selecting a different handler. |
| `Commands.Dispatch` | main.go:178-194 | `multiCommand` selects no handler exactly when the message does not start with the current prefix. |
| `Commands.DispatchBySecondWord` | main.go:180-192 | With the prefix present, the second space-delimited word alone picks the handler from the seven-entry table; any other word gets the unknown reply. |
| `Commands.DispatchFaultsIffNoSpace` | main.go:182-184 | With the prefix present, `message[1]` is out of range exactly when the message has no space. |
| `Commands.FirstWordIgnored` | main.go:180-186 | Once the prefix test passes, replacing the first word does not change the decision. |
| `Commands.DoubleSpaceIsUnknown` | main.go:182-190 | A double space after the first word gives the empty verb, which gets the unknown reply. |
| `Commands.EmptyPrefixMatchesAll` | main.go:180 | With an empty prefix, which setPrefix can install, no message is ignored. |
| `Commands.MusicDispatch` | main.go:340-360 | `music` never ignores a message. |
| `Commands.MusicGuardDeadFromRouter` | main.go:344-351 | Reached from the router, the `< 2` guard never fires. `message[2]` faults exactly on two tokens, and a third token outside the music table gets the unknown reply. |
| `Commands.MusicByThirdWord` | main.go:350-359 | The third word picks play, pause, stop or resume, and any other word gets the unknown reply. A message ending right after the verb faults. |
| `Commands.BareMusicFaults` | main.go:344-351 | `<prefix> music` routes to the music handler and then reads past the tokens. |
| `Commands.PlayQuery` | main.go:365-380 | An extracted query is the end of the message, verbatim. |
| `Commands.PlayQueryIsRest` | main.go:365-380 | The query is everything after the third space, verbatim, internal spaces included. |
| `Commands.PlayQueryReassembles` | main.go:365-380 | When a query is extracted there are four fields, and joining them with spaces gives back the message. The query is the rest of the plain split joined back. |
| `Commands.PlayOutcomeByTokenCount` | main.go:365-380 | Fewer than 3 tokens get the unknown reply, exactly 3 tokens fault at `message[3]`, and more extract a query. |
| `Commands.PlayGuardDeadFromMusic` | main.go:351-380 | Reached through `music`, the `< 3` guard never fires, and `<prefix> music play` with no query faults. |
| `Commands.JoinFour` | main.go:365 | Joining four fields with spaces is the fields with a space between each pair. |
| `Commands.PrefixAfter` | main.go:253-257 | The prefix after setPrefix is either the old prefix or one of the message's words. |
| `Commands.PrefixReply` | main.go:255-264 | The reply is `prefix set to **p**` when there is a third token and `prefix is **p**` otherwise, with p the prefix after setPrefix. |
| `Commands.PrefixAfterWords` | main.go:253-264 | When there is a third token, setPrefix makes it the prefix; with two tokens the prefix is kept. |
| `Commands.PrefixAfterHasNoSpace` | main.go:253-257 | A prefix installed by setPrefix never contains a space. |
| `Commands.Bot.constructor` | main.go:31 | The prefix starts as `!c`. |
| `Commands.Bot.SetPrefix` | main.go:251-265 | The new prefix is token 2 when the split has more than 2 tokens, and otherwise the old prefix. The reply is `prefix set to **p**` or `prefix is **p**` for the resulting prefix p. |
| `Commands.Bot.MultiCommand` | main.go:178-194 | The handler chain, each outcome stated both ways. No handler runs exactly when the prefix is missing. The unknown reply comes exactly from a miss in either table or from the guards of `music` (main.go:344) and `playMusic` (main.go:367); the top level has no guard. A fault happens exactly at one of the three out-of-range reads: `message[1]`, `message[2]` or `message[3]`. A top-level handler other than `prefix` and `music` runs exactly when the table selects it, and a music handler other than `play` runs exactly when the music table selects it. A search happens exactly when `music play` extracts a query, and it searches for that query. The prefix handler replies with `PrefixReply` for the old prefix, and only it changes the prefix. |
| `Commands.ExampleBotPing` | main.go:178-194 | A fresh bot answers `!c ping` by running ping. |
| `Commands.ExampleBotBarePrefix` | main.go:178-194 | A fresh bot faults on `!c`, at `message[1]`. |
| `Commands.ExamplePing` | main.go:180-192 | `!c ping` with prefix `!c` runs ping. |
| `Commands.ExampleUnknown` | main.go:186-189 | `!c xyz` gets the unknown reply. |
| `Commands.ExampleFirstTokenUnchecked` | main.go:180-186 | `!cx ping` also runs ping. |
| `Commands.ExampleBarePrefix` | main.go:182-184 | The bare prefix `!c` faults at `message[1]`. |
| `Commands.ExamplePlayQuery` | main.go:365-380 | `!c music play lofi beats` searches for `lofi beats`. |
| `Voice.FirstMatch` | main.go:460-464 | The position of the first voice state whose user id case-insensitively equals the id, or the end if there is none. |
| `Voice.FindMembersChannel` | main.go:455-466 | Returns `""` when the guild is not cached. Otherwise returns the channel of the first matching voice state, or `""` when none matches. |
| `Voice.FirstMatchIsFirst` | main.go:460-464 | The first-match position is the only position with no match before it and a match at it, or the end. |
| `Voice.FirstMatchIgnoresCase` | main.go:461 | Ids that differ only in ASCII letter case find the same voice state. |

## Left out

- `main` (main.go:80-160): loading the environment, opening the Discord and
  playback-server connections, and waiting for a signal. These are process I/O.
- The playback-event goroutine (main.go:129-151): it runs concurrently and
  only prints each event.
- `handleReady` and `handleVoiceUpdate` (main.go:197-209): they store the
  session id and pass it to the playback server's `UpdateVoice` as they are,
  with no check of their own.
- The handlers that only send messages or call external services are left
  out: `unknownMessage`, `ping`, `help`, `displayAvatar`, `joinVoice`,
  `disconnect`, `pauseMusic`, `resumeMusic`, `stopMusic`, and the searching
  and playing part of `playMusic`. The model shows them only as the verb a
  dispatch selects.
- `playMusic` also reads `tracks.Tracks[0]` (main.go:402-406) without checking
  that the search found anything. That read comes after the call to the
  playback server, so it is outside the parsing that is modelled.
- The Ogg container format and the internals of `oggwriter.New`, `WriteRTP`
  and `Close`: these belong to an unseen library. Writers are modelled only
  by the calls made to them and by the success flags given as input.
- The errors returned by `Close` (main.go:235): the code ignores them.
- The printed log lines (main.go:220, 229): what the model keeps of them is
  the failed call recorded in the effects.
- Concurrency: the packet channel is the finite sequence of packets it
  delivers before it is closed. Blocking and buffering are not modelled.
- `Commands.Bot.MultiCommand`: each message is handled as one atomic step on
  the prefix. In the bot, `prefix` is a package-level variable that
  `multiCommand` reads and `setPrefix` writes, from gateway handler calls that
  may run concurrently, with no lock. Interleavings of two messages, and the
  data race on `prefix`, are not modelled.
- `Commands.Bot.MultiCommand`: a `Fault` is a Go index-out-of-range panic,
  which nothing in main.go recovers, so in the bot it ends the handler and
  can end the process. The model returns `Fault` and leaves the `Bot` usable
  for later messages, so it does not capture the crash.
- `Text.EqualFold`, `Text.Fold`: only ASCII letters are folded, while Go's
  `strings.EqualFold` uses Unicode simple case folding. Discord ids are
  decimal digits, so this affects nothing the bot compares.
- Strings are sequences of characters, while Go strings are bytes. The
  splitting agrees because a space byte never occurs inside a multi-byte
  UTF-8 sequence.
- `Rtp.Header` leaves out pion's extension profile, extension list and
  padding size, which the code never sets.

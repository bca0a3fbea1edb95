# Live poll engine — a Dafny model

This project models the core of a small live-voting web application. A Node.js server
(`vote.js`) keeps one record per topic of a fixed catalog:

- the topic's status (`disabled`, `idle`, `open`, `closing`, `closed`);
- its visibility (`private` or `public`);
- the instant at which a `closing` topic will close;
- its vote ledger, a map from a case-insensitive voter key to the ballot cast.

At most one topic is active at a time. Admins log in with a password and get a one-hour
session token. They then select a topic, start it, stop it (which closes it 5000 ms later by
timer), reset it, and switch whether the names of voters are shown. Voters cast one ballot per
name; a later ballot under the same name, in any letter case, replaces the earlier one. After
every change the server broadcasts a snapshot of all topics with per-option totals, plus voter
names for public topics.

The browser client (`public/client.js`) receives these snapshots. It re-renders only when a
signature of the snapshot changes. It forgets its local option picks for topics that are `idle`
or `disabled`, and it enables the admin buttons according to the active topic's status.

The model has these modules:

- `Wrappers`: `Option`.
- `Text`: the JavaScript `trim` and `toLowerCase` used on voter names.
- `Catalog`: topics and options.
- `Ledger`: the vote ledger as an insertion-ordered sequence of entries, which is what a JavaScript `Map` is. Also name normalisation and the totals and name lists.
- `Records`: topic records.
- `Sessions`: admin sessions.
- `Projection`: `buildStatePayload`.
- `Lifecycle`: the poll invariant and one preservation lemma per transition.
- `Server`: the class `PollServer`, whose fields are the server's module-level state and whose methods are the request handlers and timer callbacks.
- `Display`: the client's pure display helpers.
- `Client`: the client's signature, pruning and admin-control rule, and the class `ClientView` holding the client's mutable globals.

The server's invariant (`Lifecycle.PollInvariant`, kept by every `PollServer` method through
`Valid()`) states:

- every catalog topic has exactly one record;
- every ledger holds each voter key at most once and only ballots for the topic's options;
- only the active topic can be `open` or `closing`, and the active topic is never `disabled`;
- a closing timer is pending exactly for a `closing` topic, due at its `closingEndsAt`.

Two behaviours of the code are worth noting:

- The start handler also accepts a topic that is `closing`, not only an `idle` one. It refuses only `disabled` and `closed`, and answers `open` as already started. A restart from `closing` cancels the pending close.
- The snapshot signature that decides whether to re-render is computed by the client (`computeStateSignature`). The server does not send one.

## Model

| member | source | states |
|---|---|---|
| Text.Trim | vote.js:147-149 | `trim` removes exactly the leading and trailing ECMAScript white space; the result is empty iff the input is all white space |
| Text.TrimIdempotent | vote.js:147-149 | trimming a trimmed name changes nothing |
| Text.LowerIdempotent | vote.js:151-153 | lower-casing a lower-cased key changes nothing |
| Text.LowerTrimCommute | vote.js:151-153 | trimming and lower-casing can be done in either order |
| Ledger.SanitizeName | vote.js:147-149 | a missing name sanitises to the empty name; the result is empty iff the input is all white space, otherwise it neither starts nor ends with white space |
| Ledger.NormalizeKey | vote.js:151-153 | the voter key is the sanitised name lower-cased character by character, so it is lower case, equally long, and empty iff the name is |
| Ledger.KeyIgnoresCase | vote.js:151-153 | names that differ only in letter case share one voter key |
| Ledger.KeyOfSanitizedName | vote.js:147-153 | sanitising the already sanitised name and keying it gives the key of the raw name |
| Ledger.Upsert | vote.js:288 | `Map.set`: an existing key keeps its position and gets the new ballot; a new key is appended; every other entry is unchanged |
| Ledger.UpsertKeys | vote.js:288 | after a store the ledger's keys are the old keys plus the voter's key |
| Ledger.UpsertUnique | vote.js:288 | a ledger with unique keys keeps unique keys after a store |
| Ledger.UpsertLookup | vote.js:288 | after a store the voter's key reads back the new ballot and every other key reads what it read before |
| Ledger.DistinctIdentities | vote.js:288 | a ledger with unique keys has exactly one entry per voter key |
| Ledger.LastWriteWins | vote.js:288 | after any sequence of stores for one key it occurs once and holds the last ballot stored; other keys read as before |
| Ledger.LastVoteWins | vote.js:278-288 | after a sequence of accepted votes whose names all map to one key, that key has one entry holding the last vote; other keys are untouched |
| Ledger.CountZero | vote.js:202-206 | an option's count is zero iff no ballot in the ledger chose it |
| Ledger.Tally | vote.js:197-206 | the tally has a total for exactly the listed options, each the number of ballots for it |
| Ledger.TallyStep | vote.js:202-206 | one more ballot increments its option's total if that option is listed and changes nothing else |
| Ledger.NameListsStep | vote.js:217-221 | one more ballot appends its display name to its option's list if that option is listed and changes nothing else |
| Ledger.NamesFor | vote.js:216-221 | an option's name list is as long as its ballot count, and every name in it is the display name of a ballot for the option |
| Ledger.NamesForSplit | vote.js:217-221 | every ballot contributes its own display name, at its own place in ledger order, exactly when it chose the option |
| Ledger.TopicTotals | vote.js:191-209 | an unimplemented topic has no totals; an implemented one has a total for every option and no other key, each counting its ballots |
| Ledger.TopicNames | vote.js:211-223 | a name list for every option and no other key, each listing that option's voters |
| Ledger.TotalsAgreeWithLedger | vote.js:191-209 | the totals add up to the ballots cast for the topic's options, and so never exceed the number of distinct voters |
| Catalog.HasOptionIsMember | vote.js:283 | `options.some(...)` holds iff the id is one of the topic's option ids |
| Catalog.FindTopic | vote.js:320 | `find` by id yields a catalog topic with that id, and nothing iff no topic has that id |
| Catalog.FindTopicUnique | vote.js:320 | with unique ids, `find` returns the catalog's only topic with that id |
| Records.InitialRecord | vote.js:91-98 | a topic starts `disabled` iff it is not implemented, otherwise `idle`; private, no deadline, no votes |
| Records.InitialRecordsFit | vote.js:91-98 | the start-up table has records for exactly the catalog's ids, each topic's being its initial record |
| Records.ParseVisibility | vote.js:420-422 | only `"public"` and `"private"` are accepted modes |
| Sessions.AfterValidation | vote.js:111-124 | validation only ever removes a session, and only the presented token when it is expired; an accepted token leaves the sessions unchanged |
| Sessions.SessionLifetime | vote.js:103-124 | a token minted at `login` is accepted exactly up to `login + 3600000` and is evicted on the first check after that |
| Projection.ProjectTopic | vote.js:225-245 | a view carries its topic's id, options and flag, the record's status and visibility (`disabled` and `private` without a record), its deadline with 0 read as none, totals computed from the ledger, and the name lists exactly when the topic has a public record and is implemented |
| Projection.Project | vote.js:225-245 | the snapshot has the active id and one view per catalog topic, in catalog order |
| Projection.ViewTotals | vote.js:191-209 | a view's totals have a key per option, are zero exactly for unchosen options, and add up to the ballots for the topic's options |
| Projection.UnimplementedView | vote.js:225-245 | an unimplemented topic is shown with no totals and no names |
| Projection.NamesAgreeWithTotals | vote.js:211-223 | published name lists have the same keys as the totals, and each list is as long as its total |
| Lifecycle.InitialInvariant | vote.js:88-101 | the start-up state (initial records, nothing active, no timers) satisfies the poll invariant, and every record is `idle` or `disabled` with an empty ledger |
| Lifecycle.CloseStep | vote.js:178-187 | a pending timer belongs to a `closing` topic, and closing it (status `closed`, no deadline, timer removed) keeps the invariant |
| Lifecycle.VoteStep | vote.js:274-288 | storing a ballot for an offered option on the open active topic keeps the invariant |
| Lifecycle.SelectStep | vote.js:303-333 | re-selecting the active topic, or clearing the selection or selecting any non-disabled topic while no vote runs, keeps the invariant |
| Lifecycle.StartStep | vote.js:335-364 | opening the active topic from `idle` or `closing`, with its timer cancelled and deadline cleared, keeps the invariant |
| Lifecycle.StopStep | vote.js:366-383 | moving the open active topic to `closing` with a deadline and a matching timer keeps the invariant |
| Lifecycle.ResetStep | vote.js:385-409 | resetting a non-disabled active topic to an empty, idle, private record with no timer and no active topic keeps the invariant |
| Lifecycle.VisibilityStep | vote.js:411-432 | changing only a record's visibility keeps the invariant |
| Server.PollServer.constructor | vote.js:88-101 | the server starts with the initial record of every topic, nothing active, no timers, no sessions and the invariant established |
| Server.PollServer.GetTopicTotals | vote.js:191-209 | the accumulator loop yields the topic's totals as computed from its ledger |
| Server.PollServer.GetNamesByOption | vote.js:211-223 | the accumulator loop yields each option's voter names in ledger order, and nothing for a topic without a record |
| Server.PollServer.BroadcastState | vote.js:247-254 | every broadcast sends the snapshot of the current state |
| Server.PollServer.CreateAdminSession | vote.js:103-109 | a new session for the fresh token expires one hour from now; other sessions are untouched |
| Server.PollServer.ValidateAdminToken | vote.js:111-124 | a token is accepted iff present, known and not expired; an expired token is evicted |
| Server.PollServer.ClearClosingTimer | vote.js:159-169 | the topic's timer is cancelled and its deadline cleared |
| Server.PollServer.ScheduleClosing | vote.js:171-189 | the topic gets a deadline and a single timer, both 5000 ms from now |
| Server.PollServer.FireClosingTimer | vote.js:178-187 | a timer fires iff it is pending and due; its topic was `closing` and becomes `closed` with no deadline; otherwise nothing changes |
| Server.PollServer.Login | vote.js:294-301 | an empty or wrong password creates no session; the right one stores the fresh token with a one-hour expiry |
| Server.PollServer.StoreBallot | vote.js:288-290 | the ballot is stored under the voter key in the topic's ledger, the invariant kept, and the new state broadcast |
| Server.PollServer.VoteOnOpenTopic | vote.js:278-291 | a blank name or an option the topic does not offer is refused without change; otherwise the trimmed name's ballot is stored under its key |
| Server.PollServer.Vote | vote.js:260-292 | a vote is refused without change unless it names the active topic, gives an option, the topic is open, the name is not blank and the option is offered; an accepted vote only changes that topic's ledger |
| Server.PollServer.SelectTopic | vote.js:303-333 | while a vote runs only the running topic may be selected; an empty id clears the selection; unknown and unimplemented topics are refused; failures change nothing |
| Server.PollServer.OpenTopic | vote.js:359-361 | the topic becomes `open` with no deadline and no timer |
| Server.PollServer.BeginClosing | vote.js:378-380 | the topic becomes `closing` with a deadline and a timer 5000 ms ahead |
| Server.PollServer.ResetTopic | vote.js:400-406 | the topic gets an empty ledger, `idle`, `private`, no deadline and no timer, and nothing is active |
| Server.PollServer.Start | vote.js:335-364 | without a valid session, an active topic or a startable status the call fails and nothing changes; `open` answers already started; otherwise the topic opens |
| Server.PollServer.Stop | vote.js:366-383 | only an open active topic can be stopped; it enters `closing` with a deadline and timer 5000 ms ahead |
| Server.PollServer.Reset | vote.js:385-409 | a non-disabled active topic is reset to an empty, idle, private record with no timer, and the selection is cleared |
| Server.PollServer.ApplyVisibility | vote.js:429-430 | only the record's visibility changes |
| Server.PollServer.SetVisibility | vote.js:411-432 | the visibility of a non-disabled active topic is set to a valid mode; anything else fails without change |
| Display.ResolveChartType | public/client.js:530-532 | the result is always a supported chart type; it equals the request iff the request is supported, and an unsupported request falls back to `pie` |
| Display.ResolveChartTypeIdempotent | public/client.js:530-532 | resolving a resolved chart type changes nothing |
| Display.ParseHexPair | public/client.js:614-616 | two hex digits parse to their base-16 value |
| Display.HexByteRoundTrip | public/client.js:614-616 | a byte written as two hex digits parses back to itself |
| Display.ParseIntHexStopsAtNonDigit | public/client.js:614-616 | `parseInt(·, 16)` reads hex digits up to the first non-digit and ignores the rest, except that a lone `0` before `x` starts a prefix |
| Display.ParseIntHexNegative | public/client.js:614-616 | a leading minus sign negates the digits that follow |
| Display.RemoveFirstHash | public/client.js:610 | a string with a `#` loses exactly one character; a string without `#` is unchanged |
| Display.RemoveFirstHashCuts | public/client.js:610 | the result is the input with its first `#` cut out: everything before that `#` is kept and every later `#` stays |
| Display.HexToRgba | public/client.js:606-617 | a non-string, or a string that is not six characters long once its first `#` is gone, gives the fallback colour; the alpha always passes through |
| Display.HexToRgbaRoundTrip | public/client.js:606-617 | `#rrggbb` written in lower-case hex converts back to its three channels |
| Display.HexToRgbaChannels | public/client.js:606-617 | six hex digits, with or without `#`, always give three channels between 0 and 255 |
| Display.FirstPaletteColourDigits | public/client.js:1 | the palette's first colour is 29, 78, 216 written in hex |
| Display.FallbackIsFirstPaletteColour | public/client.js:606-617 | the fallback colour is the palette's first colour |
| Display.RemainingSeconds | public/client.js:694-700 | no deadline, or the falsy deadline 0, gives 0; otherwise the result is the least whole number of seconds covering the time left, 0 once the deadline has passed |
| Display.RemainingSecondsMonotone | public/client.js:694-700 | the countdown never goes up as time passes |
| Display.CountdownAfterStop | public/client.js:694-700 | after a stop the countdown shows 5, never more, and reaches 0 exactly at the deadline |
| Client.TopicSigOf | public/client.js:181-197 | a topic's signature keeps its id, status, visibility, closing instant, chart type and question, and one entry per option in option order |
| Client.Signature | public/client.js:177-199 | no snapshot gives the empty signature and no snapshot has it; one topic signature per topic, in order |
| Client.ZeroFilled | public/client.js:193-194 | the filled view has an explicit total and name list for every option |
| Client.ZeroFillInvisible | public/client.js:193-194 | missing totals and names have the same signature as explicit zeros and empty lists |
| Client.FindView | public/client.js:317 | the view found carries the active id; nothing is found iff there is no active id or no view carries it |
| Client.AdminControls | public/client.js:297-326 | start and stop are never both enabled; an enabled stop locks the topic picker; an enabled start leaves the picker and reset enabled; reset and the visibility picker are enabled together; the picker lists a no-selection entry and then one entry per topic, disabled exactly for unimplemented topics |
| Client.FindViewBySignature | public/client.js:317-325 | finding the active view sees only what the signature keeps |
| Client.SignatureDeterminesControls | public/client.js:153-164 | snapshots with equal signatures whose topics also agree on title and implemented flag (which the signature leaves out) show the same admin controls |
| Client.ServerSignatureDeterminesControls | public/client.js:153-164 | two snapshots the server builds from its catalog with equal signatures show the same admin controls, so skipping the re-render loses nothing there |
| Client.FindViewOfProjection | public/client.js:317 | in a server snapshot the view found for an id is the projection of the catalog topic with that id |
| Client.ControlsMatchServer | public/client.js:317-325 | for a server snapshot, stop, reset and visibility are enabled exactly when the server would accept them; the picker is locked exactly while a vote runs; start is enabled exactly for `idle`, although the server also restarts a `closing` topic |
| Client.Pruned | public/client.js:166-175 | an entry survives iff no topic with its id is `idle` or `disabled`; surviving entries keep their values |
| Client.PrunedStep | public/client.js:170-174 | each topic removes its own entry if it is `idle` or `disabled`, and nothing else |
| Client.PrunedKeepsOnlyLiveTopics | public/client.js:166-175 | after pruning with a server snapshot a topic's pick survives iff the topic is `open`, `closing` or `closed` |
| Client.ClientView.constructor | public/client.js:42-51 | the client starts with no snapshot and the empty signature |
| Client.ClientView.PruneLocalSelections | public/client.js:166-175 | the loop leaves exactly the pruned selections; with no snapshot nothing changes |
| Client.ClientView.RenderAdminControls | public/client.js:297-326 | the controls shown are those of the current snapshot; without one nothing changes |
| Client.ClientView.Redraw | public/client.js:159-163 | the new signature is stored, the picks are pruned by the new snapshot, the controls are redrawn from it, and the vote section is re-rendered once |
| Client.ClientView.UpdateState | public/client.js:153-164 | the snapshot always becomes current; only a changed signature is stored, prunes the picks and re-renders; the controls on screen are always those of a snapshot with the current signature |

## Left out

- HTTP routing, request parsing, status codes and `server.listen` are transport. Each handler returns an `Outcome` value instead.
- The admin password comes from the environment at start-up. It is a constructor parameter.
- The WebSocket server, the socket set and the sending of payloads are I/O. A broadcast appends the snapshot to a `broadcasts` log.
- `crypto.randomBytes` is a foreign call. `Login` takes the fresh token as a parameter.
- `Date.now` is read by the caller and passed in as `now`.
- `setTimeout` and `clearTimeout` are not modelled as real timers. A timer is an entry of `closingTimers` holding its due instant. Firing it is the explicit method `FireClosingTimer`, which the environment calls at or after that instant.
- The topic catalog's data values are not modelled. The catalog is a constructor parameter with unique ids.
- Topic records are values in a map field, not shared objects. No reference to a record escapes a handler, so aliasing is not modelled.
- `getTopicTotals` tests membership with `in` on a plain object, which also sees inherited names such as `constructor`. That difference is not modelled: every stored ballot names an offered option, so it is never reached.
- The handlers' "state missing" branches (a selected topic without a record) cannot occur under the invariant. They are modelled, but the contracts do not distinguish them.
- Text.LowerChar: `toLowerCase` is modelled for ASCII `A`–`Z` and the Latin-1 capitals U+00C0–U+00DE except U+00D7 only. Other scripts' case mappings are not modelled.
- Display.HexToRgba: the result is the three parsed channels and the alpha, not the formatted `rgba(...)` string. JavaScript number formatting is not modelled.
- Display.HexToRgba: the six-character test and the two-character slices count Unicode code points, whereas JavaScript's `length` and `slice` count UTF-16 code units. The two differ only for strings with characters outside the Basic Multilingual Plane. The only colours converted are the palette constants, which are ASCII.
- Client.SignatureDeterminesControls: the signature leaves out topic titles and implemented flags. A snapshot that changes only those therefore keeps the previous picker entries on screen, as the client does. The lemma requires the two snapshots to agree on them; `Client.ServerSignatureDeterminesControls` shows that they always agree for snapshots built from one catalog.
- Client.Signature: the signature is compared as structured values. The byte-level `JSON.stringify` text is not modelled. Distinct values are assumed to have distinct JSON.
- In the client, everything that touches the DOM, Chart.js, fetch, socket reconnects, polling, `sessionStorage`, the name dialog and the countdown ticker is not modelled. `renderVoteSection` is modelled only as a counter of re-renders.

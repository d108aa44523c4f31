# LINE notifier — a Dafny model

The notifier reads the latest road-condition snapshot and pushes a fixed
text line plus an image to every configured LINE user through the
messaging provider's push endpoint. This project models its logic as pure
Dafny functions and proves what that logic promises:

- **Recipient parsing** (`recipients.dfy`, module `Recipients`). The
  `LINE_USER_IDS` string is split on `,`. Each piece is stripped of the
  whitespace Python's `str.strip()` removes, and blank pieces are dropped.
  `Split`, `Join`, `TrimLeft`, `TrimRight` and `Strip` are written out. The
  whitespace set is Python's `str.isspace()` set, listed explicitly.
- **Push request and per-recipient rule** (`push.dfy`, module `Push`).
  The request body carries the recipient, then a text message, then an
  image message whose full-size and preview URLs are the same. One push
  succeeds exactly when the answer is status 200.
- **Broadcast** (`push.dfy`). Once each push returns, every recipient is
  pushed once, in list order, with no stop after a failure. The overall flag is the conjunction
  of the per-recipient results.
- **The guard sequence of `main`** (`notifier.dfy`, module `Notifier`).
  The run stops before any push when:
  - the token is missing or empty;
  - the recipient list parses to nothing;
  - a GitHub setting is explicitly empty;
  - the snapshot is missing or falsy;
  - `data['image_path']` or `os.path.relpath` raises (line 121): an
    uncaught exception, not a logged return.

  The run records which of the recipient read and the snapshot load it
  reached, and every request it sent.

The HTTP call is an oracle `post: (nat, Payload) -> Response`. It gives the
answer to the `n`th request: a status code with a body, or a raised
exception. Environment variables are an `Env` of optional strings. The
result of `load_latest_data` is an `Option<Snapshot>`.

## Model

| member | source | states |
|---|---|---|
| Recipients.TrimLeftShape | line_notifier.py:100 | `lstrip` keeps a suffix of the string; everything it drops is whitespace; what it keeps does not start with whitespace |
| Recipients.TrimRightShape | line_notifier.py:100 | `rstrip` keeps a prefix of the string; everything it drops is whitespace; what it keeps does not end with whitespace |
| Recipients.TrimBothEnds | line_notifier.py:100 | `rstrip` after `lstrip` leaves no whitespace at either end, and leaves nothing exactly when the piece is all whitespace |
| Recipients.Strip | line_notifier.py:100 | the stripped piece has no whitespace at either end, and it is empty exactly when the piece is all whitespace (the `if user_id.strip()` filter) |
| Recipients.StripPadded | line_notifier.py:100 | `strip` of whitespace + core + whitespace is the core, for any core without edge whitespace: an independent characterisation of `strip` |
| Recipients.StripDecomposes | line_notifier.py:100 | every string is its strip with whitespace on both sides |
| Recipients.StripKeepsOut | line_notifier.py:100 | stripping cannot introduce a character, so a comma-free piece strips to a comma-free identifier |
| Recipients.StripIdempotent | line_notifier.py:100 | stripping twice is stripping once |
| Recipients.Split | line_notifier.py:100 | `split(',')` yields one more piece than there are commas, and no piece contains a comma |
| Recipients.JoinSplit | line_notifier.py:100 | joining the pieces of `split(',')` with commas gives back the configuration string |
| Recipients.SplitJoin | line_notifier.py:100 | splitting comma-joined comma-free pieces gives back the same pieces |
| Recipients.SplitAround | line_notifier.py:100 | the pieces of `a + "," + b` are the pieces of `a` followed by the pieces of `b` |
| Recipients.SplitNoSeparator | line_notifier.py:100 | a string without a comma is one piece |
| Recipients.Clean | line_notifier.py:100 | the comprehension keeps at most one identifier per piece, and every kept identifier is non-empty with no surrounding whitespace |
| Recipients.CleanAppend | line_notifier.py:100 | the comprehension works piece by piece and keeps the pieces' order |
| Recipients.CleanMembers | line_notifier.py:100 | an identifier is in the list exactly when it is non-empty and some piece strips to it |
| Recipients.ParseRecipients | line_notifier.py:100 | the comprehension yields at most one identifier per comma-separated piece; its content is stated by ParsedIdsWellFormed, ParseAround, ParseEmptyIff and ParseJoin |
| Recipients.ParsedIdsWellFormed | line_notifier.py:100 | every parsed identifier is non-empty, has no leading or trailing whitespace and contains no comma |
| Recipients.ParseAround | line_notifier.py:100 | the recipients of `a + "," + b` are those of `a` followed by those of `b`, so parsing preserves order |
| Recipients.ParseEmptyIff | line_notifier.py:99-103 | the list is empty exactly when the setting is made only of commas and whitespace (the empty string included) |
| Recipients.ParseSingle | line_notifier.py:100 | a non-blank setting without a comma yields the one-element list of its strip |
| Recipients.ParseJoin | line_notifier.py:100 | round trip: comma-joining well-formed identifiers and parsing gives back the same identifiers in the same order |
| Recipients.ParseOne | line_notifier.py:100 | a well-formed identifier on its own parses to the list holding just that identifier |
| Push.PushPayload | line_notifier.py:33-46 | the request body reads back as exactly (recipient, text, image URL) |
| Push.ReadPushPayloadInverse | line_notifier.py:33-46 | a body reads back as given fields exactly when it is the body built from them: `to` is the id, then two messages, text first, then image with equal original and preview URLs |
| Push.SendMessageWithImage | line_notifier.py:26-60 | the request sent carries the id, the message and the image URL; the push succeeds iff the answer is status 200; any other status or a raised exception is failure |
| Push.SendToAllUsers | line_notifier.py:62-69 | one request per recipient in list order, so the attempted ids equal the input list even after failures; each request carries its recipient, the message and the URL; success iff every answer was 200 (true for the empty list) |
| Notifier.RunNotifier | line_notifier.py:88-132 | a missing or empty token stops the run before the recipients are read, with nothing sent; an empty recipient list stops it before the snapshot is loaded; an explicitly empty GitHub setting, a missing or falsy snapshot, and an unusable `image_path` each end the run exactly when every earlier guard passed; nothing is sent unless every guard passes; a finished run pushes the fixed text and image URL to every parsed recipient in order, and reports success iff every push got 200 |
| Notifier.RunIgnoresSnapshotContents | line_notifier.py:120-122 | two snapshots that both let the run finish give the same run: the pushed image URL does not depend on the snapshot |
| Notifier.BlankRecipientsSendNothing | line_notifier.py:99-103 | a setting made only of commas and whitespace, or an unset one, stops the run after reading the recipients, with nothing sent |
| Notifier.JoinedRecipientsAllReached | line_notifier.py:99-132 | when the setting is well-formed ids joined by commas and every guard passes, the run finishes and pushes once to each of those ids, in order |
| Notifier.ConfiguredRecipients | line_notifier.py:99-100 | the recipients `main` uses are the parse of `LINE_USER_IDS`, or of `""` when unset; each is a well-formed identifier, and the list is empty exactly when the setting is only commas and whitespace |
| Notifier.ConfiguredJoined | line_notifier.py:99-100 | a setting of well-formed ids joined by commas configures exactly those ids |
| Notifier.FinishedRunReachesConfigured | line_notifier.py:115-132 | when every guard passes, the run finishes and its requests go to the configured recipients in order (the step JoinedRecipientsAllReached builds on) |

## Left out

- Bearer header, `Content-Type` header and the endpoint URL (lines 19-24, 30, 49): what goes over the wire besides the JSON body is the HTTP client's business. The `post` oracle stands for the whole `requests.post` call.
- `post` always answers, with a status or a raised exception. Line 49 sets no timeout, so a request that never returns would block the remaining recipients. That case is not modelled, and the broadcast's "one request per recipient" holds only for answers that arrive.
- Logging (lines 8-16 and every `logger` call), and the two summary `print`s (lines 134-137): output only. The run's `Outcome` carries the success flag and the recipient count those lines print.
- `load_latest_data` (lines 71-86): file existence, file reading and JSON decoding are I/O. Its result is the `latest: Option<Snapshot>` input. `None` stands for both a missing file and an exception.
- `Snapshot` keeps only what `main` looks at: whether the top-level value is an object, its truth value, and whether `image_path` is a non-empty string. Other fields are not modelled.
- `load_dotenv` and `os.getenv` (lines 90-108): the environment is the `Env` input. `github_branch` (line 108) is read but never used, so it is not modelled.
- `image_rel_path` (line 121) is computed and then unused. Only whether computing it raises is modelled, as the `ImagePathRaised` outcome.
- `road_scraper.py`: one HTTP GET and a byte write to disk, with no logic beyond a status check.
- Identifiers are Dafny strings of `char`, which cannot hold the lone surrogates (U+D800 to U+DFFF) that `os.getenv` produces for undecodable bytes. Parsing treats every non-whitespace, non-comma character alike, so this does not change which pieces are kept.
- `ImagePathUsable` follows POSIX `os.path.relpath`, which raises only on an empty path. On Windows it also raises for a path on another drive; that case is not modelled.
- The collector that parses the road page, crops the screenshot and writes the CSV and JSON files is not part of this model.

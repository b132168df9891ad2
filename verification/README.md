# Email command bot: a Dafny model of its decision logic

The bot (`bot.py`) runs once per invocation: it lists a Gmail inbox, reads the
first listed message, trashes it if the fetched response is non-empty, and
checks two things. The sender must be the
one allowed address. The subject must match `^cmd: (\w+)$`. If the captured
token is exactly `send_cams`, the bot downloads two camera images and mails
them back as attachments.

This project models that decision logic. The Gmail service and the HTTP
downloads are replaced by an immutable `World` record. The record holds:

- the inbox listing;
- a store of fetched responses;
- an ordered log of every request issued (`list`, `get`, `trash`, a download,
  `send`).

The modelled exceptions, each a `Result.Failure`, are:

- `TypeError`: the pattern is searched in a missing subject.
- `ValueError`: a content type without `/` is unpacked.
- A transport error: `get` is asked for an id the service does not know.

Modules:

- `Types`: `Option`, `Result` and the exceptions.
- `Headers`: `get_header_value`.
- `Command`: `parse_command`, with Python `re.search` semantics and no flags.
  `^` can only match at index 0. `$` matches at the end of the string or just
  before one final newline.
- `Transport`: the abstract mail account, the request log and its projections.
  `Trashed`, `Fetched`, `Downloaded` and `Sent` pick the matching requests out
  of the log, in log order.
- `Inbox`: `get_latest_email`.
- `Response`: the content-type fallback and `send_response_email`.
- `Bot`: the dispatch branch of `main`, and one whole run.

## Model

| member | source | states |
|---|---|---|
| `Headers.GetHeaderValueIsFirstMatch` | bot.py:59-74 | The lookup returns `None` exactly when no header has the exact, case-sensitive name. Otherwise it returns the value of the first header with that name, in list order. |
| `Command.WordRunEnd` | bot.py:197-199 | Gives the greedy extent of `\w+`: every character in the run is a word character, and the run stops at the end of the string or at a non-word character. |
| `Command.SearchCommand` | bot.py:197-199 | The search returns `None` exactly when the pattern has no match anchored at index 0. Otherwise it returns group 1 of that match. |
| `Command.SearchCommandShape` | bot.py:197-199 | The search yields `t` exactly when the subject is `"cmd: " + t`, optionally followed by one newline, and `t` is a non-empty run of word characters. This holds in both directions. |
| `Command.ParseCommand` | bot.py:187-205 | A missing subject raises `TypeError` whatever the sender. With a subject present, a sender other than the allowed one gets `None`. A returned token is non-empty and all word characters, comes only from the allowed sender, and `"cmd: " + token` equals the subject less one trailing newline. |
| `Command.ParseCommandAccepts` | bot.py:197-203 | The parser returns token `t` exactly when the sender equals the allowed address and the subject has the command shape for `t`. This holds in both directions. |
| `Command.MalformedSubjectRejected` | bot.py:197-205 | A present subject without the command shape gives `None` for every sender. |
| `Command.ParseCommandKeepsCase` | bot.py:199-203 | `"cmd: SEND_CAMS"` yields `"SEND_CAMS"` unchanged, with no case folding. `"cmd: send_cams\n"` yields `"send_cams"`. |
| `Transport.RemoveId` | bot.py:127 | Trashing takes the id out of the inbox listing and keeps every other listed id. |
| `Transport.TrashFirstLeavesRest` | bot.py:120-127 | When listed ids are distinct, trashing the first listed id leaves exactly the rest of the listing, in order. |
| `Inbox.GetLatestEmail` | bot.py:103-131 | Only the first listed id is fetched, and nothing is fetched from an empty listing. That id is trashed exactly once when, and only when, its fetched response is truthy. The store is never changed, and nothing is downloaded or sent. The call raises exactly when the service does not know the first id. It returns a pair exactly when the first message is truthy, and that pair is the message's `From` and `Subject` values. |
| `Response.SplitOnce` | bot.py:172 | `split('/', 1)` unpacked into two parts fails exactly when there is no `/`. Otherwise the parts are the text before and the text after the first `/`. |
| `Response.SplitOnceJoined` | bot.py:172 | Splitting `main + "/" + sub`, where `main` has no `/`, gives back exactly `main` and `sub`: the split inverts the join. |
| `Response.AttachmentSubtype` | bot.py:169-172 | An attachment's subtype is the text after the first `/` of its effective content type. The call raises `ValueError` exactly when that type has no `/`. |
| `Response.FallbackIsOctetStream` | bot.py:169-172 | With no guessed type, or with a reported encoding, the subtype is `octet-stream`. |
| `Response.GuessedTypeKept` | bot.py:169-172 | A guessed `main/sub` type with no encoding keeps subtype `sub`. |
| `Response.SendResponseEmail` | bot.py:149-184 | The call raises `ValueError`, with nothing sent, exactly when some attachment's content type has no `/`. Otherwise it appends exactly one `send` with the given recipient, subject and body. That mail carries one attachment per path, in order, each labelled with the subtype of its content type. |
| `Bot.Dispatch` | bot.py:224-237 | Any token other than exactly `send_cams` does nothing. `send_cams` downloads the front image and then the back image, then sends one reply to the owner with both attached in that order. The reply is missing exactly when an image's content type cannot be split. |
| `Bot.Run` | bot.py:208-237 | The first listed message is fetched, and it is trashed whenever its response is truthy, whatever the parse outcome. Downloads and a reply happen only when the sender is the allowed one and the token is `send_cams`. The run raises exactly on a transport error (`TransportError`), a missing subject (`TypeError`) or an unsplittable image type (`ValueError`). A failed run sends no mail. The inbox afterwards lacks the first id exactly when that message was trashed, and is otherwise unchanged. A successful command run issues list, get, trash, download front, download back and send, in that order. |

## Left out

- `authenticate_gmail` (bot.py:77-100) is not modelled. It covers the OAuth flow, token-file I/O and interactive consent. `send_response_email` also calls it, and the mail's `From` (`creds._client_id`) is not modelled either.
- `download_image` (bot.py:134-146) is recorded only as a `Download(url, path)` event. The HTTP fetch and the file write are not modelled, and neither are download failures. A connection or URL error makes `requests.get` (bot.py:143) raise, which aborts the run before the reply. An HTTP error status such as 404 does not raise, because the code never checks the status. The error body is then saved to the image path (bot.py:145-146) and attached to the reply as if it were the image.
- The body of the outgoing mail's MIME parts is not modelled: file reading, `MIMEImage` construction, the `Content-Disposition` filename (`os.path.basename`) and base64 encoding. Each part keeps only its path and subtype. `MIMEImage` labels a part `image/<subtype>`, because the main type from the split is discarded.
- The `try/except` around `send` is modelled by its effect only. The request is logged, and a failure changes neither the outcome nor the state. The printed messages are not modelled.
- The internals of `mimetypes.guess_type` are not modelled. It is the uninterpreted parameter `guess`.
- Gmail's listing order is taken as given. Nothing assumes it is newest first.
- `Command.IsWordChar` approximates Python's Unicode `\w` by its ASCII members `[A-Za-z0-9_]`. Subjects containing non-ASCII letters or digits are rejected here but accepted by Python.
- A truthy message always carries `payload['headers']` in this model. The source would raise `KeyError` on a message without them, and that case is not representable.
- Every entry of the transport's store is a response whose truthiness is `Some`/`None`. Other transport faults (network, authentication, an `HttpError` from `list` at bot.py:114 or `trash` at bot.py:127) are not modelled, apart from an unknown id on `get`.
- `print` logging and the `__main__` guard are not modelled.
- A best-effort policy for failed downloads (skip the image, send the rest) is not modelled, because the code has none: downloads are unguarded.
- A failing `open(attachment_path, 'rb')` in `send_response_email` (bot.py:173) is not modelled. Such a failure would raise before the send; the model treats every attachment file as readable.

## Behaviour worth noting

These points are modelled as the code does them:

- A falsy `get` response is not trashed. Trashing depends on the fetched response, not merely on the listing.
- A message without a `Subject` header makes the parser raise `TypeError`. No silent `None` is returned.
- The regular expression's `$` also accepts one final newline. A subject `"cmd: x\n"` is a command.

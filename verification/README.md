# StepQR string logic in Dafny

StepQR wraps a third-party QR-code library in two front-ends. One is a Flask
web application (app.py). The other is a desktop generator built on
customtkinter (main.py). Almost all of it is framework glue. This project
models the parts that are plain, deterministic text logic:

- `modify_dropbox_link`, which turns a Dropbox share link ending in `dl=0`
  (the preview page) into one ending in `dl=1` (a direct download). Both
  files define it, with identical text. It calls `re.sub(r"dl=0$", "dl=1", link)`,
  and is modelled together with Python's `$` rule: `$` matches at the end of
  the string and also just before one final line break.
- The web application's QR payload builders: a vCard 3.0 contact, an
  iCalendar VEVENT and a `geo:` URI. The model covers the text each builds,
  not the QR call that follows. Each builder is paired with a parser that
  reads the payload back. The round-trip lemmas say exactly which inputs
  survive, because fields are inserted verbatim, without the escaping that
  section 4 of RFC 2426 and section 3.3.11 of RFC 5545 require.
- The desktop generator's callbacks, as a state machine over
  `generated_qr`. That is the payload of the last QR code generated, if
  any. The image itself is abstracted as the payload text it encodes.
  main.py wires three buttons to them (main.py:96, 105, 108): link,
  Dropbox path and download. Two outcomes decided by code outside the model
  are parameters: whether the QR library can fit a text into its largest
  symbol (it raises `DataOverflowError` otherwise), and whether writing the
  chosen file succeeds (it raises `OSError` otherwise). An exception ends
  the callback early and leaves `generated_qr` as it was.

app.py and main.py are stored with CRLF line endings. Python reads the
line breaks inside their triple-quoted f-strings as a single `\n` each, so
the payloads here use `"\n"`.

Files:

- `optional.dfy`: the `Option` datatype.
- `text.dfy`: Python string operations. These are substring tests,
  `endswith`/`startswith`, `"\n".join` and `split("\n")`, and lemmas
  relating join and split.
- `pyre.dfy`: `re.sub` with a literal pattern anchored by `$`. It is written
  as the left-to-right scan `re.sub` performs, and proved equal to a
  closed form.
- `dropbox_link.dfy`: the rewrite and its properties.
- `payloads.dfy`: the vCard, VEVENT and geo builders with their parsers.
- `desktop.dfy`: main.py's copy of the rewrite, the three callbacks, and
  whole-session lemmas.

## Model

| member | source | states |
|---|---|---|
| DropboxLink.ModifyDropboxLink | app.py:237-240 | Length never changes. A link without `dropbox.com` is returned as is, and so is one ending neither in `dl=0` nor in `dl=0` plus a line break. A Dropbox link ending in `dl=0` gets its last character turned into `1`, and one ending in `dl=0` plus a line break gets the character before the break turned into `1`. Any character that differs is a `0` turned into `1` at one of those two positions. |
| PyRe.SubAtEnd | app.py:239 | `re.sub` of a literal anchored by `$` replaces the literal at the very end of the string, or the literal just before a final line break, and otherwise returns the string unchanged. |
| PyRe.SubCharacterised | app.py:239 | The left-to-right scan of `re.sub`, which tries every position and skips past each match, gives exactly that closed form. |
| PyRe.MatchUnique | app.py:239 | For a literal that does not end in a line break, at most one position can match the `$`-anchored pattern. |
| DropboxLink.Idempotent | app.py:237-240 | Rewriting an already rewritten link changes nothing. |
| DropboxLink.EarlierOccurrenceKept | app.py:239 | A `dl=0` that is not the end-anchored match is still present after the rewrite. |
| DropboxLink.QueryParameterAfterPreviewKept | app.py:239 | `...?dl=0&raw=1` on dropbox.com is left untouched. |
| DropboxLink.HostKept | app.py:238-239 | The rewritten link contains `dropbox.com` exactly when the original does. |
| Text.Join6 | app.py:247-252 | Joining six lines with `\n` puts exactly one break between each neighbouring pair, as the multi-line f-string does. |
| Text.Join7 | app.py:256-262 | The same for seven lines. |
| Payloads.VCard | app.py:246-252 | On every input the payload is the text `BEGIN:VCARD\nVERSION:3.0\nN:` name `\nTEL:` phone `\nEMAIL:` email `\nEND:VCARD`, fields inserted verbatim. If no field holds a line break, splitting the payload on line breaks gives exactly the six lines `BEGIN:VCARD`, `VERSION:3.0`, `N:`name, `TEL:`phone, `EMAIL:`email, `END:VCARD`. Otherwise it gives more than six lines. |
| Payloads.VCardRoundTrip | app.py:247-252 | The vCard parses back to the same contact exactly when no field holds a line break. In every other case it does not parse at all. |
| Payloads.VEvent | app.py:255-262 | On every input the payload is the text `BEGIN:VEVENT\nSUMMARY:` title `\nDTSTART:` start `\nDTEND:` end `\nLOCATION:` location `\nDESCRIPTION:` description `\nEND:VEVENT`, fields inserted verbatim. If no field holds a line break, splitting gives exactly the seven lines BEGIN, SUMMARY, DTSTART, DTEND, LOCATION, DESCRIPTION, END, in that order and with the fields verbatim. Otherwise it gives more than seven lines. |
| Payloads.VEventRoundTrip | app.py:256-262 | The event parses back to itself exactly when no field holds a line break. In every other case it does not parse. |
| Payloads.Geo | app.py:265-266 | On every input the URI is laid out as `geo:`, the latitude, `,`, the longitude, `?q=` and the name, each at its own position (`GeoLaidOut`). When the latitude has no `,` and the longitude no `?`, a consumer that splits at the first `,` and the first `?` reads back the same latitude, longitude and name. A `,` in the latitude (with no `?` after it or in the longitude) makes the consumer read the latitude's head as the latitude and its tail, a `,` and the longitude as the longitude. A `?` in the longitude (with no `,` in the latitude) cuts the longitude there, and the rest of it, `?q=` and the name form the query, which reads back only if it starts with `q=`. |
| Payloads.GeoFields | app.py:266 | For any three texts, the f-string's text has `geo:` first, then the latitude, a `,`, the longitude, and `?q=` with the name to the end, and is exactly that long. |
| Payloads.GeoLaidOutUnique | app.py:266 | Two texts with that layout for the same place are equal, so the layout fixes the URI completely. |
| Payloads.GeoReadBack | app.py:266 | Case by case, how a consumer that splits at the first `,` and the first `?` reads the URI back: exactly, with the latitude's tail moved into the longitude, or with the longitude's tail moved into the query. |
| Payloads.GeoCommaInLatitude | app.py:266 | A latitude `head,tail` reads back as latitude `head` and longitude `tail,longitude`, with the name intact. |
| Payloads.GeoQueryInLongitude | app.py:266 | Once a `?` ends the longitude, everything after it is the query: the URI reads back as the latitude, the longitude's head and the query minus `q=` when the query starts with `q=`, and does not read back otherwise. |
| Payloads.GeoRoundTrip | app.py:266 | The URI parses back to the same place exactly when the latitude contains no `,` and the longitude no `?`. |
| Desktop.ModifyDropboxLink | main.py:17-20 | main.py's copy of the rewrite equals the web application's one on every input, so every property above holds for it too. |
| Desktop.GenerateFromLink | main.py:22-42 | An empty entry is refused with "Please enter a link to generate QR code" and leaves `generated_qr` alone. A text the encoder cannot fit raises `DataOverflowError` and leaves the state alone. Any other text, including one made only of blanks, becomes the payload exactly as typed and is displayed. |
| Desktop.GenerateForDropbox | main.py:22-53 | An empty entry is refused with "Please enter a Dropbox path to generate QR code" and leaves the state alone. If the encoder cannot fit the rewritten link, `DataOverflowError` is raised and the state is left alone. Any other text becomes the payload after the Dropbox rewrite and is displayed. |
| Desktop.DownloadQr | main.py:69-77 | The state is never changed. The error shows exactly when nothing has been generated. An image is saved exactly when something has been generated, a non-empty path was chosen and the write succeeds, and it holds the stored payload at that path. A failed write raises `OSError` before the notice. A cancelled dialog saves nothing. |
| Desktop.ApplyMatchesAccepted | main.py:22-53 | A press either replaces the stored payload with the one it accepts (the link as typed, or the rewritten Dropbox path, when the encoder can fit it) or leaves the state unchanged. |
| Desktop.RunKeepsLastAccepted | main.py:22-77 | After any sequence of presses, `generated_qr` holds the payload of the last accepted generation. Refused entries, texts the encoder cannot fit and downloads do not count. If no generation was accepted, it holds what it held before. |
| Desktop.ApplyPreservesValid | main.py:37-52 | No press stores an empty payload. |
| Desktop.RunPreservesValid | main.py:37-52 | No session stores an empty payload. |
| Desktop.DownloadAfterSession | main.py:69-77 | From start-up, a download reports "No QR code generated yet" exactly when no generation was accepted. Otherwise it saves the last accepted payload to the chosen path. It does nothing when the dialog was cancelled, and raises `OSError` when the write fails. |

## Left out

- Flask routes, sessions and login (app.py:83-222, 269-297): HTTP and ORM glue, with password hashing done by werkzeug.
- SQLAlchemy models and `update_statistics` (app.py:40-70, 224-234): database state managed by the ORM.
- `generate_qr_code` (app.py:242-244) is an unimplemented stub. The payload builders call it with one argument although it requires `qr_type`, so in Python each builder raises a `TypeError` after building its text. Only the text is modelled.
- QR encoding, `compress_image`, image resizing, saving and data-URL building (app.py:76-78, 150-152; main.py:22-32, 55-67): foreign-library calls on raster images. The image is represented by the payload it encodes.
- CSV and PDF export (app.py:183-212): the `csv` module and datetime formatting. The PDF branch is empty.
- `cache_key_generator` (app.py:80-81): Python's `hash` of strings is salted per process, so it is not a function of its input.
- Widgets, message boxes, the file dialog, the Dropbox token and `mainloop` (main.py:10-15, 79-111): UI and I/O. Message boxes become `Effect` values, and the dialog's answer is a parameter. A cancelled dialog is taken to return `""`.
- All three payload builders (Payloads.VCard, Payloads.VEvent, Payloads.Geo) take their arguments as text already. The `str()` formatting the f-strings apply to non-text arguments, such as a float latitude or longitude, is not modelled.
- Payloads.Geo: the read-back is not characterised when the latitude holds a `,` and a `?` follows it in the latitude or the longitude. The URI text is still fixed in that case by `GeoLaidOut`.
- Desktop.GenerateFromLink: which texts fit is the parameter `fits`. The capacity of a version-40 symbol at error-correction level L, and the library's choice of encoding modes, are not modelled.
- Desktop.GenerateForDropbox: the same `fits` parameter stands for the encoder's capacity.
- Desktop.DownloadQr: whether the write succeeds is a parameter of the press. A partly written file after a failed write is not modelled.
- Desktop.DownloadQr: `if generated_qr:` tests the truth value of an image object. The model takes every generated image as true, so "generated" means "a payload is stored".

# QR-Generator page: a Dafny model

This project models the client page of the QR-Generator web application
(`front-end-nextjs/src/app/page.js`). On that page the user types a URL and
submits it. The page POSTs it to a QR-generation service and shows the message
and hosted QR-code image it gets back. A download button then saves the image
as `qr-code.png`. It does so through a force-download variant of the image URL:
the first `/upload/` in the URL becomes `/upload/fl_attachment/`.

The model has five modules:

- `Wrappers` (`wrappers.dfy`): the `Option` type, used for JavaScript's
  `undefined` and for searches that find nothing.
- `DownloadLink` (`download_link.dfy`): the pure part of `handleDownload`.
  It models JavaScript's first-occurrence `String.prototype.replace` with a
  string pattern, the derived download URL, and the `(href, filename)` pair
  of the link the button clicks.
- `ApiRequest` (`api_request.dfy`): the service address
  (`NEXT_PUBLIC_API_URL || "http://localhost:8000"`) and the request URL
  `${API_URL}/generate-qr/?url=${url}`, built with no encoding.
- `Workflow` (`workflow.dfy`): the page's four pieces of state
  (`url`, `qrCodeUrl`, `message`, `loading`) as a value, and the events that
  change them:
  - the user edits the field;
  - a submission begins;
  - the awaited request settles, with the axios outcome as the event's input.

  It also holds the transition function, runs of events, what the page
  renders from its state, and a session model in which the disabled submit
  button keeps at most one request outstanding.
- `HomePage` (`home_page.dfy`): the `Home` component as a class. Its four
  fields are the `useState` values, and it has one method per event. Each
  method states its whole new state and is proved to perform
  `Workflow.Step`.

Three behaviours of the code are easy to misread; the model follows the code:

- Beginning a submission does not clear a previous result. Only `loading`
  changes.
- There is no separate "failed" state. A failure only resets `loading`, so an
  earlier message and image stay on screen.
- A response body that resolves but lacks `message` or `qr_code_url` is not a
  failure. The missing field becomes `undefined` and replaces the earlier
  value, so it is shown as nothing (`Workflow.MissingFieldsClearResult`). Only
  a `null`/`undefined` body, where reading `.message` throws, goes down the
  `catch` path.

## Model

| member | source | states |
|---|---|---|
| `DownloadLink.IndexOfFrom` | front-end-nextjs/src/app/page.js:44 | the result is an index at or after the start where the pattern occurs, with no occurrence between the start and it; `None` only when the pattern occurs nowhere from the start on |
| `DownloadLink.IndexOf` | front-end-nextjs/src/app/page.js:44 | the first occurrence of the pattern, found exactly when the pattern is contained in the string |
| `DownloadLink.ReplaceFirst` | front-end-nextjs/src/app/page.js:44 | `String.prototype.replace` with a string pattern and a replacement without `$` patterns, defined by its body; its contract gives the result unchanged when the pattern is absent and of length `|s| - |pat| + |rep|` otherwise, and `ReplaceFirstAtSplit` and `ReplaceFirstAbsent` pin its value |
| `DownloadLink.ReplaceFirstAtSplit` | front-end-nextjs/src/app/page.js:44 | `replace` with a string pattern and a replacement without `$` patterns: if `s = p + pat + q` and `pat` starts nowhere inside `p`, the result is `p + rep + q` |
| `DownloadLink.ReplaceFirstAbsent` | front-end-nextjs/src/app/page.js:44 | `replace` returns its input unchanged when the pattern is absent |
| `DownloadLink.DeriveDownloadUrl` | front-end-nextjs/src/app/page.js:44 | the derived URL equals the image URL exactly when `/upload/` does not occur in it |
| `DownloadLink.DeriveWhenPresent` | front-end-nextjs/src/app/page.js:44 | with `/upload/` present, the derived URL is the text before its first occurrence, then `/upload/fl_attachment/`, then everything after that occurrence, later occurrences untouched |
| `DownloadLink.DeriveWhenAbsent` | front-end-nextjs/src/app/page.js:44 | without `/upload/`, the derived URL is the input, and no error arises |
| `DownloadLink.DeriveInsertsFlag` | front-end-nextjs/src/app/page.js:44 | with `/upload/` present, the derived URL is 14 characters longer, keeps the input through the end of the first `/upload/` verbatim, has `fl_attachment/` next, then the rest of the input verbatim |
| `DownloadLink.DeriveUndo` | front-end-nextjs/src/app/page.js:44 | removing the inserted `fl_attachment/` from the derived URL gives the image URL back |
| `DownloadLink.DeriveKeepsFirstUpload` | front-end-nextjs/src/app/page.js:44 | the derived URL's first `/upload/` is at the same index as the input's (or absent in both) |
| `DownloadLink.DeriveCdnExample` | front-end-nextjs/src/app/page.js:44 | `https://cdn.example.com/upload/F` becomes `https://cdn.example.com/upload/fl_attachment/F` for every file part `F` |
| `DownloadLink.DeriveNoUploadExample` | front-end-nextjs/src/app/page.js:44 | `https://cdn.example.com/img/abc.png` is left unchanged |
| `ApiRequest.ResolveApiUrl` | front-end-nextjs/src/app/page.js:27 | the service address is never empty; it is the configured value when that is non-empty, otherwise `http://localhost:8000` |
| `ApiRequest.RequestUrl` | front-end-nextjs/src/app/page.js:33 | the request URL is the service address, then `/generate-qr/?url=`, then the field value verbatim, with exactly their total length |
| `ApiRequest.RequestUrlRoundTrip` | front-end-nextjs/src/app/page.js:33 | the field value is recoverable from the request URL by stripping the known prefix, and no other request URL strips to it |
| `ApiRequest.AmpersandSplitsQuery` | front-end-nextjs/src/app/page.js:33 | because nothing is encoded, the request for a field `f&r` is the request for `f` followed by `&r`: an `&` in the field starts a further query parameter |
| `ApiRequest.RequestUrlInjective` | front-end-nextjs/src/app/page.js:33 | different field values give different request URLs |
| `ApiRequest.EmptyFieldDefaultRequest` | front-end-nextjs/src/app/page.js:27-33 | with nothing configured, an empty field is still sent, to `http://localhost:8000/generate-qr/?url=` |
| `Workflow.FieldIsLastEdit` | front-end-nextjs/src/app/page.js:29-60 | after any run of events the field holds the last edited value (or its starting value); submissions and completions never clear it |
| `Workflow.ResultIsLastSuccess` | front-end-nextjs/src/app/page.js:29-41 | after any run of events, message and image URL are those of the last successful completion in it (or the starting ones) |
| `Workflow.LoadingIsLastSubmit` | front-end-nextjs/src/app/page.js:29-41 | after any run of events, `loading` is true exactly when the last submission or completion was a submission |
| `Workflow.FailuresKeepStaleResult` | front-end-nextjs/src/app/page.js:36-39 | a run without a successful completion leaves message and image URL unchanged |
| `Workflow.LastResolvedWins` | front-end-nextjs/src/app/page.js:29-41 | the transition function applies completions in the order they resolve: in a run with two overlapping requests, the one that resolves last decides the result; the page's UI cannot produce such a run |
| `Workflow.Step` | front-end-nextjs/src/app/page.js:31-60 | one event's transition, defined by its body: only an edit changes the field, `loading` is set by a submission and cleared by a completion, and only a successful completion changes message and image URL; the `Home` methods are proved to perform it (`State() == Step(old(State()), e)`) |
| `Workflow.LoadingBlocksSubmit` | front-end-nextjs/src/app/page.js:64 | while `loading` is true, a submission after any number of edits is refused |
| `Workflow.OverlapNotAllowed` | front-end-nextjs/src/app/page.js:64 | from any session, no allowed run holds two submissions with only edits between them, anywhere in the run, because one of them meets a disabled button |
| `Workflow.RunFirst` | front-end-nextjs/src/app/page.js:29-60 | applying the first event and then the rest gives the same state as `Run` over the whole run |
| `Workflow.DriveIsRun` | front-end-nextjs/src/app/page.js:29-64 | the page of a driven session is the state `Run` gives, so the `Run` lemmas hold along allowed runs |
| `Workflow.SubmitShowsProgress` | front-end-nextjs/src/app/page.js:64-74 | after a submission begins, the button is disabled and reads `Generating...`, the spinner shows, and field, message and image are as before |
| `Workflow.Render` | front-end-nextjs/src/app/page.js:57-84 | the JSX as a function of the state, defined by its body: the field shows `url`, button disabled and spinner shown exactly when loading, message shown exactly when non-empty, image shown exactly when its URL is non-empty, with a download link to the derived URL; pinned further by `Home.Rendered` and the `*Shows*` lemmas |
| `Workflow.SuccessShowsResult` | front-end-nextjs/src/app/page.js:75-84 | after a success with a non-empty message `m` and a non-empty image URL `q`, the page shows `m`, the image at `q` and a download link to the derived URL named `qr-code.png`, with the button enabled |
| `Workflow.FailureShowsNothingNew` | front-end-nextjs/src/app/page.js:36-39 | after a failure the button is enabled, and message and image are exactly what was shown before |
| `Workflow.MissingFieldsClearResult` | front-end-nextjs/src/app/page.js:34-35 | a resolved body without `message` and `qr_code_url` leaves no message and no image shown |
| `Workflow.SuccessExample` | front-end-nextjs/src/app/page.js:33-47 | typing `https://example.com`, submitting, and receiving `ok` with `https://cdn.example.com/upload/x.png` shows `ok`, that image, and a link to `https://cdn.example.com/upload/fl_attachment/x.png` |
| `Workflow.AdvanceKeepsOneAtATime` | front-end-nextjs/src/app/page.js:64 | every event the rendered page allows keeps at most one request outstanding, with `loading` true exactly while one is |
| `Workflow.OneRequestAtATime` | front-end-nextjs/src/app/page.js:64 | along any run the page allows, at most one request is outstanding and `loading` says whether one is |
| `Workflow.MountIsOneAtATime` | front-end-nextjs/src/app/page.js:22-25 | the freshly mounted page has nothing outstanding and is not loading |
| `HomePage.Home.constructor` | front-end-nextjs/src/app/page.js:22-27 | mounting starts with an empty field, no message, no image, not loading, and the resolved service address |
| `HomePage.Home.ChangeUrl` | front-end-nextjs/src/app/page.js:60 | editing sets the field and changes nothing else |
| `HomePage.Home.BeginSubmit` | front-end-nextjs/src/app/page.js:31-33 | beginning a submission sets `loading` and changes nothing else; the request goes to the request URL built from the current field |
| `HomePage.Home.FinishSubmit` | front-end-nextjs/src/app/page.js:34-39 | a success sets message and image URL from the body; a failure keeps both; either way `loading` ends false and the field is unchanged |
| `DownloadLink.DownloadLinkFor` | front-end-nextjs/src/app/page.js:44-47 | the link the download button clicks, defined by its body: filename `qr-code.png`, and an href equal to the image URL exactly when `/upload/` is absent; `Home.HandleDownload` states it further |
| `HomePage.Home.HandleDownload` | front-end-nextjs/src/app/page.js:43-51 | the link has the derived URL as href and `qr-code.png` as filename, is 14 characters longer when `/upload/` occurs and equal otherwise, and the page state is untouched |
| `HomePage.Home.Rendered` | front-end-nextjs/src/app/page.js:64-84 | the submit button is disabled exactly when loading, the message is shown exactly when non-empty, and image and download control are shown exactly when the image URL is non-empty |

## Left out

- api/main.py is not part of this model. It is the QR-generation service: QR image generation, PNG serialisation, the upload to the image host, the database insert and the HTTP/CORS setup. All of it is foreign-library and I/O code. The page sees it only through the outcome of its request.
- The `axios.post` network call itself is left out. Its outcome (a body, a nullish body, or a rejection) is the input of the completion event.
- The DOM work of `handleDownload` is left out: creating the anchor, appending it, clicking it and removing it. Only the `(href, filename)` pair it clicks is modelled.
- The one-time spinner `<style>` injection at module load is left out, and so are the `styles` object and the static JSX layout. They are presentation only.
- The `console.error` logging in the `catch` block is left out. It is a diagnostic side channel with no effect on state.
- Interleaving inside `handleSubmit` is not modelled. Each completion is one atomic event. Overlapping requests cannot arise through the page's UI (`Workflow.OverlapNotAllowed`, `Workflow.OneRequestAtATime`); `Workflow.LastResolvedWins` only shows how the transition function would order their completions.
- How the service parses its query string is not modelled; `ApiRequest.AmpersandSplitsQuery` shows only that an `&` in the field reaches it as a parameter separator.
- React's batching of state setters is not modelled. A completion's setters are applied together as one step, which is what the next render sees.
- A missing response field is stored as `""` rather than `undefined`. Both are falsy, so every render condition treats them alike. A field of another JSON type (a number, an object) is not modelled.
- The build-time inlining of `NEXT_PUBLIC_API_URL` is left out. The environment value is a constructor parameter: `None` when unset.
- JavaScript strings are UTF-16 code-unit sequences; the model uses Dafny `char` sequences and counts lengths in those.

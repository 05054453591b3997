# AI code reviewer with per-user review memory — Dafny model

The system takes a code snippet, asks a language model for a review, and keeps each
user's past reviews. Those past reviews steer later prompts. This project models the logic
behind that:

- **The memory object** (`CodeReviewMemory`, `src/memory.js`). There is one per user id.
  It keeps an in-memory list of review records. An empty list is loaded lazily from the
  object's storage key `'history'`. `/history` answers with the list. POST `/store`
  appends a record, keeps only the last 50 and writes the whole list back. Any other
  request is a 404.
- **Prompt composition** (`buildReviewPrompt`, `src/index.js`). The prompt has three
  parts, in this order:
  - a header with the code in a fence tagged with its language;
  - when the user has history, a hint quoting the first 100 characters of each of the
    last three reviews, joined by `"; "`;
  - a fixed five-point instruction block.
- **The two API endpoints** (`src/index.js`).
  - `POST /api/review` first rejects a missing or empty `code` with 400. It then reads the
    user's history, builds the prompt and calls the model. Only when the model answers
    does it store `{code, language, review, timestamp}`. It returns the review and the
    length of the history read *before* the store. Any failure gives 500 and stores
    nothing.
  - `GET /api/history` returns the user's history.
  - On both endpoints a missing user id selects the identity `"default"`.

Modules:

- `JsValues`: missing values, and JavaScript's `x || fallback` on strings.
- `Seqs`: the list primitives `slice(-n)`, `substring(0, n)` and `join`.
- `Records`: the review record.
- `Memory`: the memory object as a pure state machine over `(history in memory, stored value)`.
- `Prompt`: the prompt builder.
- `Api`: the endpoints. They run over a `World` that holds each user's live in-memory
  history and each user's stored history, keyed by identity.

The reviewer model is a parameter `ai: string -> AiOutcome`. It maps the prompt to
`Completed(text)` or `Failed`. The clock reading `Date.now()` is a parameter `now`.

## Model

| member | source | states |
|---|---|---|
| Memory.Construct | src/memory.js:2-5 | A newly constructed object is reconciled with its storage. Through the lazy load it shows the stored list, or `[]` when nothing is stored. |
| Memory.Fetch | src/memory.js:7-44 | The answer is success exactly for POST `/store` with a body. Every other request leaves storage and the visible history unchanged. A successful store leaves a non-empty history that storage holds exactly. |
| Memory.Load | src/memory.js:10-14 | An empty in-memory history becomes the stored list, or `[]` when nothing is stored. A non-empty one is never reloaded. Storage is only read, and the history the object shows is unchanged. |
| Memory.AppendCapped | src/memory.js:27-33 | After a push-and-cap the list has at most 50 entries. Its last entry is the pushed record. It equals the last 50 of old list followed by the record. |
| Memory.AppendUnderCap | src/memory.js:28-33 | Below 50 entries nothing is dropped and order is kept: the result is old list followed by the record. |
| Memory.AppendAtCap | src/memory.js:31-32 | At exactly 50 entries only the oldest is dropped: the result is `old[1..]` followed by the record. |
| Memory.HistoryReadOnly | src/memory.js:17-21 | `/history`, with any method, answers with the visible history. It changes neither that history nor storage. |
| Memory.HistoryReadIdempotent | src/memory.js:11-21 | Two `/history` reads in a row give the same answer and the same object. |
| Memory.StoreAppends | src/memory.js:24-41 | POST `/store` answers success. The new in-memory history is the capped append to the visible history. Storage then holds exactly that list. |
| Memory.OtherRequestsNotFound | src/memory.js:43 | Any other path, and `/store` with a method other than POST, is a 404. It changes neither the visible history nor storage. |
| Memory.FetchKeepsInvariant | src/memory.js:7-44 | Every request keeps memory and storage reconciled, and both within 50 entries. Afterwards the in-memory list equals the stored list, or `[]` when nothing is stored. |
| Memory.FetchKeepsBound | src/memory.js:28-33 | Every request keeps both copies within 50 entries. |
| Memory.ReconstructKeepsView | src/memory.js:2-14 | A reconciled object can be rebuilt by the constructor over the same storage. The lazy load then shows the same history. |
| Memory.StoreAllAppends | src/memory.js:24-36 | Several `/store` requests in turn show the history that capped appends of those records produce. |
| Memory.AppendAllKeepsLast | src/memory.js:28-33 | Start from a list of at most 50 entries and append records in turn under the cap. The result is the last 50 of old list followed by the records. |
| Memory.StoreAllKeepsLast | src/memory.js:24-36 | Several stores on an object within the cap leave the last 50 of old history followed by the new records. |
| Memory.StoresFromEmpty | src/memory.js:28-33 | Start from a new object with empty storage and make N stores. Exactly the last min(N, 50) records remain, in insertion order. |
| JsValues.OrElse | src/index.js:37 | `x \|\| d` on a possibly missing string: the string when it is present and non-empty, otherwise the fallback. The result is non-empty whenever the fallback is. |
| Seqs.Last | src/memory.js:32 | `slice(-n)` for n ≥ 1: the result has min(\|s\|, n) elements and is the suffix of `s` of that length. (`src/index.js:95` uses it with n = 3.) |
| Seqs.Take | src/index.js:95 | `substring(0, n)`: the result has min(\|s\|, n) characters and is a prefix of `s`. |
| Seqs.Join | src/index.js:96 | `join(sep)`: the empty string for no parts, otherwise a string that begins with the first part. `Seqs.JoinLength` gives its exact length. |
| Prompt.Header | src/index.js:92 | The header begins with `Review this `. It ends with the code itself, followed by the closing fence and a blank line. |
| Prompt.Hint | src/index.js:94-97 | The hint is empty exactly when the history is empty. Otherwise it begins with the fixed lead-in and ends with a blank line. Its contents are stated by `Prompt.HintQuotesOne`, `Prompt.HintQuotesTwo` and `Prompt.HintQuotesLastThree`. |
| Prompt.Excerpts | src/index.js:95 | The quoted excerpts come from exactly the last min(3, \|history\|) entries, oldest first. Each is the first 100 characters of that entry's review. |
| Prompt.BuildPrompt | src/index.js:91-102 | The prompt always begins with the header. The header is `Review this <language or "code"> snippet:`, then the code fenced with the language tag (or none). The prompt always ends with the five-item "Provide:" block. |
| Prompt.NoHistoryNoHint | src/index.js:94-97 | Without history the prompt is exactly the header followed by the instructions. There is no hint segment. |
| Prompt.HintQuotesOne | src/index.js:94-97 | With one entry the hint is the fixed lead-in, that review's first 100 characters, then a blank line. |
| Prompt.HintQuotesTwo | src/index.js:94-97 | With two entries the hint is the fixed lead-in, then both excerpts in order separated by `"; "`, then a blank line. |
| Prompt.HintQuotesLastThree | src/index.js:94-97 | With three or more entries the hint has four parts: the fixed lead-in, then the excerpts of the last three reviews in order separated by `"; "`, then a blank line. |
| Prompt.HintBounded | src/index.js:95-96 | However long the history, the hint has at most three 100-character excerpts plus two separators, around its fixed lead-in and ending. |
| Prompt.PromptBounded | src/index.js:91-102 | The prompt's length is bounded by the code and language alone, never by the history. |
| Prompt.OlderHistoryIgnored | src/index.js:95 | Entries before the last three never affect the hint. |
| Api.Identity | src/index.js:37 | The identity is the user id when it is present and non-empty, otherwise `"default"`. It is never empty. Line 76 applies the same default. |
| Api.Call | src/index.js:38-41 | A request through an identity's stub acts as `Memory.Fetch` on that identity's object and gives its answer. No other identity's in-memory history or storage changes. |
| Api.Review | src/index.js:25-72 | The answer is 400 exactly when `code` is missing or empty. Every answer other than a review leaves storage untouched. |
| Api.ReviewFor | src/index.js:36-71 | A validated review never answers 400. If it fails, storage is untouched. On success it reports the length of the history read before the store. |
| Api.History | src/index.js:75-85 | `GET /api/history` answers with the history of the identity the user id selects, and storage is untouched. |
| Api.HistoryFor | src/index.js:77-84 | For a given identity the answer is that identity's visible history, and storage is untouched. |
| Api.ReadCall | src/index.js:41 | Reading a user's history answers with the visible history. It changes no visible history and no storage. |
| Api.StoreCall | src/index.js:58-61 | Storing a record for one identity appends it under the cap. The result is persisted, and every other identity is unchanged. |
| Api.RejectsOnlyFalsyCode | src/index.js:29-34 | The answer is 400 exactly when `code` is missing or empty, and then nothing at all changes. Whitespace-only code is accepted. |
| Api.FailedReviewStoresNothing | src/index.js:26-71 | When the model fails, the answer is 500. Storage is untouched and every user's visible history is as before. |
| Api.SuccessfulReviewStores | src/index.js:36-65 | On success the model is prompted with the earlier history. The answer is the model's text with the earlier history's length. `{code, language, review, timestamp}` is appended under the cap and persisted. No other user changes. |
| Api.HistoryEndpointReadOnly | src/index.js:75-85 | `GET /api/history` answers with the user's history. It changes no visible history and no storage. |
| Api.MissingUserIsDefault | src/index.js:37 | A missing or empty user id behaves exactly like the id `"default"`. This holds on both endpoints; line 76 applies the same default. |
| Api.CallKeepsValid | src/memory.js:10-36 | Any request to a memory object keeps every live object reconciled with its storage and every history within 50 entries. |
| Api.EndpointsKeepValid | src/index.js:25-85 | Both endpoints keep every live object reconciled with its storage and within the cap. |
| Api.EvictKeepsHistory | src/memory.js:2-14 | Discarding an object's in-memory instance loses nothing. The next request's lazy load shows the same history. |
| Api.FirstReviewExample | src/index.js:25-65 | A new user's first review of Python `print(1)`: the prompt is the fenced header plus the instructions. The answer counts 0 earlier reviews. Afterwards the user's history is exactly that one record. |

## Left out

- The HTML/CSS/JavaScript frontend (`src/index.js:105-350`) is user interface only.
- CORS headers, the OPTIONS preflight, the worker's URL routing and the `Response`/JSON wrapping are transport only. JSON encoding is taken as identity. In particular, a missing `language` stays missing after a round trip through storage.
- The model call's details are left out: the model name, the system message and `max_tokens: 1024`. The call is the opaque `ai` parameter. An answer without a `response` field is not modelled: every `Completed` carries text.
- A request body that is not JSON is left out, both at `/api/review` and at the object's `/store`. The exception is a `/store` request with no body at all: it is modelled as a rejection, which the worker would turn into a 500.
- Durable Object addressing (`idFromName`, `get`, `stub.fetch`) is reduced to a map lookup by identity.
- `state.storage` is a value per identity, and its I/O never fails. In the source, a failing `put` would leave the pushed record in memory but not in storage. That path is not modelled.
- `Date.now()` is the parameter `now`.
- Concurrent or interleaved requests for the same user are left out. The source has no locking to verify. Each request is modelled as one atomic step on the world.
- `substring(0, 100)` counts UTF-16 code units. Here it counts Dafny `char`s.
- `/api/review` rejects falsy `code`. Among strings that means missing or `""`. Whitespace-only code is accepted and reviewed (`Api.RejectsOnlyFalsyCode`).
- The request body's fields `code`, `language` and `userId` are modelled as strings only, and JSON `null` is read as missing. Other JSON values are not modelled. The source rejects `0` and `false` as falsy `code`. It puts a truthy non-string such as `123` into the prompt and stores it.
- Memory.StoreAllKeepsLast: the lemma requires the starting object to be within the cap. Every object the model can reach is within the cap (`Memory.FetchKeepsBound`).

# NextUp media stores, modelled in Dafny

NextUp keeps a catalogue of media items: TV shows, movies, books and music. Each item
has a title, a type, a creator, an optional genre, an optional year and the date it was
added. The server keeps that catalogue in three stores that do not share code. This
project models all three, plus the validation rules on the C# request payloads:

- `MemStore` (`mem_store.dfy`) models `MemStorage` of `server/storage.ts`, the
  in-memory store behind the HTTP routes.
  - A class holds the user map and the media map.
  - Each map is paired with the sequence of its keys in insertion order. That is the
    order in which `Array.from(map.values())` lists a JavaScript `Map`.
  - The getters are functions.
  - `createUser`, `createMediaItem`, `updateMediaItem` and `deleteMediaItem` are
    methods that reassign the maps.
  - `getRandomMediaItem` is a method that narrows a local sequence step by step.
- `ListController` (`list_controller.dfy`) models the list-backed `MediaController` of
  `server/Controllers/TodoController.cs`.
  - It keeps a sequence of integer-id records: the `MediaItemDto` of
    `server/DTOs/ToDoDto.cs`.
  - The id is found with a loop (`NextId`), the item is looked up with a loop
    (`FindIndex`), and `Update` assigns fields one at a time.
- `Validation` (`validation.dfy`) models the data-annotation attributes on
  `CreateMediaItemDto` and `UpdateMediaItemDto` in `server/DTOs/ToDoDto.cs`, as
  predicates.
  - `[Required]` on a string rejects `null`, `""` and strings made only of white space.
  - `[StringLength]` counts UTF-16 code units, as `string.Length` does.
  - `[StringLength]` and `[RegularExpression]` let `null` through.
  - `[RegularExpression]` also lets `""` through.
- `DocumentController` (`document_controller.dfy`) models the Firestore-backed
  `MediaController` of `server/Controllers/MediaController.cs`.
  - The `mediaItems` and `reports` collections are maps from document id to a field
    dictionary.
  - A query is the equality filters and limit the controller puts on it. `Scan` runs a
    query by walking the collection in an unspecified order.
  - A ghost counter records how many writes the controller issues.
- Both C# controllers carry `[ApiController]`, so ASP.NET checks the request body
  against its attributes before `Create` or `Update` runs. A body that fails gets
  400 Bad Request and nothing is stored. Both models' `Create` and `Update` check
  `Validation.CreateValid` or `Validation.UpdateValid` first.
- `Variants` (`variants.dfy`) proves where the stores disagree, on concrete values.
  - `MemStorage` compares types ignoring case and genres as case-insensitive substrings.
  - Both C# controllers compare exactly.
  - The validator admits only `TV`, `Movie`, `Book` and `Music`.
- `Results`, `Text` and `Collections` hold shared pieces: absent values, C# `int`,
  ASCII case folding, substring search, order-preserving filtering, and the key order of
  a map.

Nondeterministic inputs are parameters or nondeterministic choices:
- Fresh ids (`randomUUID()`, Firestore auto-ids) are parameters that the caller
  guarantees are not in use.
- Clocks are parameters.
- `Math.random()` is a parameter `rand` with `0 <= rand < 1`.
- `Random.Next(n)` is an arbitrary index below `n`.

## Model

| member | source | states |
|---|---|---|
| Text.Lower | server/storage.ts:52 | folding keeps the length, folds each character and leaves no upper-case ASCII letter |
| Text.LowerIdempotent | server/storage.ts:52 | folding a folded string changes nothing |
| Text.Includes | server/storage.ts:58 | `includes` is true iff `sub` occurs in `s` at some index |
| Collections.Filter | server/storage.ts:51-53 | the result keeps exactly the elements satisfying the predicate and is no longer than the input |
| Collections.FilterFilter | server/storage.ts:65-71 | two filters in a row keep, in order, exactly what their conjunction keeps |
| Collections.FilterIf | server/storage.ts:65-71 | filtering only when a condition holds equals filtering by the guarded predicate |
| Collections.FilterDistinct | server/storage.ts:102-104 | filtering keeps a duplicate-free key order duplicate-free |
| Collections.TracksSize | server/storage.ts:46-48 | a key order listing each key of a map once has as many entries as the map |
| Collections.TracksWithout | server/storage.ts:102-104 | `Map.delete` keeps the key order in step with the map |
| MemStore.NewMediaItem | server/storage.ts:79-88 | the stored record has the given id and time, copies title and type, and holds `null` exactly when creator, genre or year is missing or falsy (`""`, `0`) |
| MemStore.Merge | server/storage.ts:97 | every supplied field overwrites its own and every other field, including id and dateAdded, is kept |
| MemStore.MergeEmpty | server/storage.ts:97 | an empty partial update leaves the record as it was |
| MemStore.MergeIdempotent | server/storage.ts:97 | applying the same partial update twice equals applying it once |
| MemStore.NarrowingSelects | server/storage.ts:63-71 | the type filter and then the genre filter, each applied only when its argument is non-empty, equal one conjunctive filter in the same order |
| MemStore.RandomIndex | server/storage.ts:75 | `Math.floor(Math.random() * n)` is an index below `n` |
| MemStore.RandomIndexReaches | server/storage.ts:75 | every index below `n` is produced by some value of `Math.random()` |
| MemStore.FindByUsername | server/storage.ts:33-35 | the result is absent iff no listed user has the name, otherwise it is the first one that has |
| MemStore.MemStorage.GetUser | server/storage.ts:28-30 | a user is returned iff one is stored under the id, and it is that user |
| MemStore.MemStorage.GetUserByUsername | server/storage.ts:32-36 | a user is returned iff some stored user has the name, and the one returned has it |
| MemStore.MemStorage.CreateUser | server/storage.ts:38-43 | the user is stored under the fresh id with the given fields, appended to the key order, and nothing else changes |
| MemStore.MemStorage.GetAllMediaItems | server/storage.ts:46-48 | every stored item appears exactly once, in insertion order, so the length equals the map's size |
| MemStore.MemStorage.GetMediaItemsByType | server/storage.ts:50-54 | the result holds exactly the stored items whose type equals the argument ignoring case |
| MemStore.MemStorage.GetMediaItemsByGenre | server/storage.ts:56-60 | the result holds exactly the stored items that have a genre containing the argument ignoring case; a `null` genre never matches |
| MemStore.MemStorage.Candidates | server/storage.ts:63-71 | the items drawn from are exactly the stored items passing every filter given |
| MemStore.MemStorage.GetRandomMediaItem | server/storage.ts:62-77 | the result is `undefined` iff no stored item passes the filters; otherwise it passes them, it is the only match when there is one, and it is the candidate at `floor(rand * n)` |
| MemStore.MemStorage.CreateMediaItem | server/storage.ts:79-91 | exactly one entry is added under the fresh id, holding the normalised record; the previous entries and the users are unchanged |
| MemStore.MemStorage.UpdateMediaItem | server/storage.ts:93-100 | an absent id gives `undefined` and no change; a present one has its record replaced by the merge; the key set and key order stay the same |
| MemStore.MemStorage.DeleteMediaItem | server/storage.ts:102-104 | returns whether the id was present; afterwards it is absent, the other entries are unchanged, and a second delete therefore returns false |
| Validation.Utf16Length | server/DTOs/ToDoDto.cs:17 | `string.Length` is between the number of characters and twice that; it equals the number of characters when none lies outside the Basic Multilingual Plane, and twice it when all do |
| Validation.Required | server/DTOs/ToDoDto.cs:16 | `[Required]` rejects `null` and `""`, and accepts every string whose first character is not white space |
| Validation.StringLength | server/DTOs/ToDoDto.cs:17 | `[StringLength]` lets `null` through; an accepted string has at most `max` characters; for text inside the Basic Multilingual Plane it accepts exactly the lengths `min..max` |
| Validation.TypePattern | server/DTOs/ToDoDto.cs:21 | the pattern attribute lets `null` and `""` through, and any other accepted string is one of the four type names |
| Validation.CreateValid | server/DTOs/ToDoDto.cs:14-32 | an accepted create payload has a title, a type and a creator; the type is one of the four names; title and creator are at most 200 characters, and the title is not empty |
| Validation.UpdateValid | server/DTOs/ToDoDto.cs:34-49 | an accepted update payload has a type that is one of the four names or `""`, and a non-empty title when it has one; the all-`null` payload is accepted |
| Validation.MediaTypesNotBlank | server/DTOs/ToDoDto.cs:21 | every admitted type name has a non-blank character |
| Validation.CreateValidMeans | server/DTOs/ToDoDto.cs:14-32 | a create payload is accepted iff: the title is present, 1 to 200 UTF-16 units and not blank; the type is one of the four names exactly; the creator is present, at most 200 units and not blank; the genre is at most 100 units when present |
| Validation.UpdateValidMeans | server/DTOs/ToDoDto.cs:34-49 | an update payload is accepted iff every present property is within the create bounds, counted in UTF-16 units; the type may also be `""` |
| Validation.AstralTitleRefused | server/DTOs/ToDoDto.cs:17 | a title of 101 characters outside the Basic Multilingual Plane is 202 UTF-16 units long and is refused |
| Validation.EmptyUpdateValid | server/DTOs/ToDoDto.cs:34-49 | an update payload with every property `null` is accepted |
| Validation.CreateValidIsUpdateValid | server/DTOs/ToDoDto.cs:14-49 | every accepted create payload is an accepted update payload |
| Validation.TypeOutsideEnumerationRefused | server/DTOs/ToDoDto.cs:20-22 | `MOVIE`, `movie` and `Podcast` are refused: the type check is anchored and case-sensitive |
| Validation.BlankTitleRefused | server/DTOs/ToDoDto.cs:16-18 | a title of spaces only is refused although its length is within bounds |
| Validation.EmptyTypeAcceptedOnUpdate | server/DTOs/ToDoDto.cs:39-40 | an update may set the type to `""`, which is not one of the four names |
| ListController.MaxId | server/Controllers/TodoController.cs:39 | `Max(m => m.Id)` bounds every id and is attained by one |
| ListController.NextIdOf | server/Controllers/TodoController.cs:39 | the issued id is 1 for an empty list; otherwise it is one more than an existing id and greater than every id |
| ListController.IndexOfId | server/Controllers/TodoController.cs:55 | `FirstOrDefault` finds nothing iff no item has the id, else the first position holding it |
| ListController.RemoveId | server/Controllers/TodoController.cs:73 | removing a found item shortens the list by one, keeps every other item and adds none; a missing id changes nothing |
| ListController.Patched | server/Controllers/TodoController.cs:58-62 | each non-null property of the payload overwrites its field, the rest are kept, and id and date stay the same |
| ListController.NarrowingTypeGenre | server/Controllers/TodoController.cs:16-18 | the conditional type and genre `Where` calls equal one conjunctive filter, in list order |
| ListController.NarrowingKeeps | server/Controllers/TodoController.cs:16-20 | the three conditional `Where` calls equal one conjunctive filter, in list order |
| ListController.AppendNextIdUnique | server/Controllers/TodoController.cs:39-47 | appending an item that carries the next id keeps the ids distinct |
| ListController.RemoveAtUnique | server/Controllers/TodoController.cs:73 | removing the item at a position keeps the ids distinct and leaves none equal to the removed item's id |
| ListController.RemoveIdUnique | server/Controllers/TodoController.cs:71-73 | removing by id keeps the ids distinct and leaves no item with that id |
| ListController.DeletedNewestIdReissued | server/Controllers/TodoController.cs:39 | deleting the newest item restores the earlier list, so the next create issues the deleted id again |
| ListController.MediaList.GetAll | server/Controllers/TodoController.cs:14-21 | the result is the list filtered, in order, by the exact type, genre and year filters supplied; with no filter it is the whole list |
| ListController.MediaList.GetRandom | server/Controllers/TodoController.cs:25-31 | the result is NotFound iff no item has exactly the type, otherwise a stored item that has it |
| ListController.MediaList.NextId | server/Controllers/TodoController.cs:39 | the loop computes the issued id, which is greater than every stored id |
| ListController.MediaList.FindIndex | server/Controllers/TodoController.cs:55 | the loop finds the first position holding the id, or nothing |
| ListController.MediaList.Create | server/Controllers/TodoController.cs:35-49 | BadRequest with no change iff the payload fails its attributes; otherwise exactly one item is appended, carrying the next id, the given time and the payload's five properties, and the ids stay distinct |
| ListController.MediaList.Update | server/Controllers/TodoController.cs:53-65 | BadRequest with no change iff the payload fails its attributes; otherwise NotFound with no change iff the id is absent; otherwise only the found item changes, to its patched form |
| ListController.MediaList.Delete | server/Controllers/TodoController.cs:69-75 | NotFound iff the id is absent; otherwise the list shrinks by one and no item with the id remains |
| DocumentController.ToInt32 | server/Controllers/MediaController.cs:39 | the unchecked cast gives a 32-bit value congruent to the stored integer modulo 2^32 |
| DocumentController.ToInt32Keeps | server/Controllers/MediaController.cs:39 | a stored value that fits in 32 bits is read back unchanged |
| DocumentController.ToInt32Wraps | server/Controllers/MediaController.cs:39 | 2^31 is read back as -2^31 |
| DocumentController.MapDocument | server/Controllers/MediaController.cs:22-42 | a missing document gives its id and the epoch only; otherwise title, type and creator are the stored string or `""`, genre the string or `null`, year the integer or `null`, and the date the stored time or the epoch |
| DocumentController.ReportFields | server/Controllers/MediaController.cs:53-60 | the report holds title and date always, and issue and correction exactly when they are non-empty |
| DocumentController.CreateFields | server/Controllers/MediaController.cs:114-129 | the document holds title, type, creator and date always, genre exactly when non-null, and year exactly when it has a value |
| DocumentController.UpdateFields | server/Controllers/MediaController.cs:156-161 | the update holds exactly the non-null properties, with their values |
| DocumentController.CreatedDocumentReadsBack | server/Controllers/MediaController.cs:110-145 | for an accepted payload, reading back the written document gives the DTO `Create` returns |
| DocumentController.UpdatedDocumentReadsBack | server/Controllers/MediaController.cs:156-165 | after a merge update, the document reads as before with the non-null properties replaced, and nothing else changed |
| DocumentController.EmptyUpdateWritesNothing | server/Controllers/MediaController.cs:156-166 | a payload with every property `null` yields no field to write |
| DocumentController.Matches | server/Controllers/MediaController.cs:81-83 | `WhereEqualTo` on type, genre and year: a query with no filter admits every document, and an admitted document reads back with the filtered type, genre and year |
| DocumentController.AppendFreshId | server/Controllers/MediaController.cs:87 | adding the reading of a document not yet listed keeps the result ids distinct |
| DocumentController.ScanKeep | server/Controllers/MediaController.cs:85-87 | reading one more admitted document keeps exactly one reading per admitted document seen |
| DocumentController.ScanSkip | server/Controllers/MediaController.cs:85-87 | passing over a refused document keeps the same property |
| DocumentController.Scan | server/Controllers/MediaController.cs:85-87 | a query snapshot holds one reading per admitted document, stopping only at the limit |
| DocumentController.MediaController.RunQuery | server/Controllers/MediaController.cs:85-87 | every result is the reading of a stored document the query admits, each at most once; there are as many results as admitted documents, capped by the limit; every admitted document is there when they all fit within the limit |
| DocumentController.MediaController.GetAll | server/Controllers/MediaController.cs:78-90 | the results are exactly the readings of the documents passing the query built from the non-empty type and genre and the year with a value, each once; with no filter every document is read |
| DocumentController.MediaController.GetRandom | server/Controllers/MediaController.cs:94-106 | the window holds at most 100 readings, each of a stored document of exactly the given type and each once; it holds all such documents when there are at most 100 of them; NotFound iff no document has that type; otherwise one reading from the window |
| DocumentController.MediaController.Report | server/Controllers/MediaController.cs:45-74 | an empty title gives BadRequest and no write; otherwise exactly one report is stored under the new id, and the reply echoes the payload's issue and correction as given |
| DocumentController.MediaController.Create | server/Controllers/MediaController.cs:110-145 | BadRequest with no write iff the payload fails its attributes; otherwise one document is added under the new id with the built fields, and the reply carries the new id and the payload's values |
| DocumentController.MediaController.Update | server/Controllers/MediaController.cs:149-169 | BadRequest with no write iff the payload fails its attributes; otherwise NotFound with no write iff the document is missing; otherwise the update is merged into its fields, with no write when it is empty; no other document changes |
| DocumentController.MediaController.Delete | server/Controllers/MediaController.cs:173-181 | NotFound iff the document is missing; afterwards it is absent and the others are unchanged |
| Variants.UpperCaseTypeFoundOnlyInMemStore | server/storage.ts:66 | an item of type `Movie` passes the filter `MOVIE` in `MemStorage`, but in neither C# controller, and no create payload may carry `MOVIE` |
| Variants.GenreSubstringFoundOnlyInMemStore | server/storage.ts:70 | an item of genre `sci-fi` passes the genre filter `fi` in `MemStorage`, but in neither C# controller |

## Left out

- The React client, the Express routes in `server/routes.ts`, and `server/Program.cs` (startup, dependency injection, CORS) are not part of this model. `server/Controllers/PingController.cs` is not part of this model either.
- The in-memory store's handling of invalid request bodies is not part of this model: the zod parsing in `server/routes.ts` sits in front of it. `MemStore.InsertMediaItem` is the already-parsed body.
- Asynchrony, Firestore failures, retries and network errors are not modelled. Each Firestore call is one step on a map.
- Which documents a Firestore query returns, and in what order, is not modelled. `Scan` walks the documents in an arbitrary order, so the model fixes neither the order of results nor which 100 documents make up the `GetRandom` window.
- The distribution of `Math.random()` and `Random.Next` is not modelled. Only the range of the drawn index is.
- UUID and Firestore id collisions are excluded: the fresh id is a parameter that the caller guarantees is unused.
- `toLowerCase` is modelled on ASCII letters only. Unicode case mapping is not modelled.
- `Validation.IsWhiteSpace`: covers the white space of the Latin-1 range only. `string.IsNullOrWhiteSpace` also treats the other Unicode space separators as blank.
- The ASP.NET rule that makes a non-nullable reference property implicitly required depends on project settings that are not part of this model. `Validation.CreateValid` follows the attributes as declared, so a `null` genre is accepted.
- `ListController.MediaList.GetRandom`: takes the `type` query parameter as a present string. A request without it, which the implicit-required rule would answer with 400, is not modelled.
- `DocumentController.MediaController.GetRandom`: takes the `type` query parameter as a present string, for the same reason.
- `ListController.MediaList.NextId`: uses unbounded integers. C# `int` would overflow when the largest id is `int.MaxValue`.
- `ListController.MediaList.Update`: changes the item at its position. Other references to the same `MediaItemDto` object, which the C# code would also change, are not modelled.
- `MemStore.RandomIndex`: computes `rand * n` in real arithmetic. JavaScript multiplies IEEE doubles and rounds, so for some draws the chosen index is one higher than the model's. Every index is reachable either way.
- Concurrent requests on the static list and on the shared `MemStorage` singleton are not modelled.
- Firestore compares numbers across integer and floating-point types. The model stores years as integers only, and its `Value` type has no floating-point case.
- `DocumentController.MediaController.GetRandom`: the window of considered documents is a ghost result. When more than 100 documents match, its contract does not say which of them the window holds.
- The `MediaItemDto` that `server/Controllers/MediaController.cs` returns comes from `Api.Models`, which is not part of this model. Its properties are taken to be nullable, with the values the mapping assigns.

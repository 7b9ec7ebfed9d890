# komga-anilist-fetcher, modelled in Dafny

The program copies manga metadata from AniList into a Komga library server.
The operator picks a Komga library and series, then searches AniList and
picks a hit. The program fetches the hit's record and reduces it to a
`MangaInfo`:

- the title (the operator settles it when the English and romaji titles differ);
- the cover;
- the description with its markup tags removed;
- the status and the genres;
- an optional author and an optional artist, picked from the staff list.

It then writes the series metadata back to Komga. When an author or an
artist was picked, it also writes the credits of the series' first book.

This project models that decision logic:

- `tags.dfy` (module `Tags`): the description clean-up, which is the regular
  expression `</?\w+>` replaced by nothing. It is written as a left-to-right
  scan, `StripTags`, and proved equal to the regex engine's leftmost-match
  procedure, `ReplaceAll`.
- `anilist.dfy` (module `Anilist`): title resolution, staff options and
  their labels, the staff choice, the cover fallback, the search-hit labels,
  the id selection, and `GetAnilistData`, which puts them together.
- `komga.dfy` (module `Komga`): the status table, the request URL and
  authentication, the choice of library and series, the series body, and
  `UpdateInfo`, which sends the series PATCH and, if needed, the book lookup
  and the credits PATCH.
- `prompt.dfy` (module `Prompt`): the operator as a script of answers. Each
  answer is `Pick(i)`, `Escape` or `Interrupt`. A `Dialog` holds the answers
  still to come and a log of the menus shown so far, so contracts can say
  which prompts were issued, in what order and with which options.
  `Select` and `SelectSkippable` are the two prompt forms the program uses.
- `common.dfy` (module `Common`): `Option`, `Result` and the errors.
- `scenario.dfy` (module `Scenario`): one whole record taken end to end.

Network responses arrive as already-decoded datatypes. A Rust panic
(indexing an empty list, a `Display` that fails) is modelled as an `Err`.

Points where the program's behaviour is easy to misread:

- A title field is optional, not "non-empty": `Some("")` is a valid title.
- `MangaInfo` keeps AniList's status. The Komga vocabulary is applied only
  in `update_info`.
- A tag name is a run of `\w` characters, which includes `_`; it is not
  only alphanumeric.
- The staff prompt cannot be shown with an empty list. The `inquire` select
  widget refuses an empty option list with an error, even in its skippable
  form. So a record without staff ends the run (`EmptyOptions`) instead of
  giving "no author".
- The cover is computed but never sent to Komga.

## Model

| member | source | states |
|---|---|---|
| `Anilist.ResolveTitle` | src/anilist.rs:207-228 | Equal English and romaji titles give that title with no prompt. A single present title is returned with no prompt. Neither gives `NoTitleAvailable`. Two different titles are offered as exactly `[english, romaji]`; the result is the picked one, and Esc is `PromptCancelled`. The dialog is untouched exactly when no prompt was needed. |
| `Anilist.StaffOptions` | src/anilist.rs:230-238 | One option per staff edge, same length and order; option i has edge i's full name and role. |
| `Anilist.StaffLabel` | src/anilist.rs:161-165 | The label is the name, then `" - "`, then the role. |
| `Anilist.StaffLabels` | src/anilist.rs:262 | The menu shows one label per option, in order. |
| `Anilist.GetStaffName` | src/anilist.rs:261-267 | An empty list is an error. Esc gives `None`, not an error, and the menu is still logged as shown. A pick gives `Some` of the picked option's name, with the role dropped. Ctrl-C is an error. |
| `Prompt.SelectSkippable` | src/anilist.rs:262-265 | The skippable prompt: Esc is the answer "no selection"; Ctrl-C and an empty list are errors; a pick is an index into the labels. |
| `Prompt.Select` | src/anilist.rs:216 | The mandatory prompt: Esc is `PromptCancelled`, Ctrl-C is `PromptInterrupted`, an empty list is `EmptyOptions`; a pick is an index into the labels, and the menu is logged. |
| `Anilist.GetAnilistData` | src/anilist.rs:206-258 | A title failure ends the run before any staff prompt. An empty staff list ends it with `EmptyOptions`. Once the title resolves, a failing author prompt ends the run with that prompt's error; after an author answer, a failing artist prompt ends it with that error; the run succeeds exactly when the title and both staff prompts succeed. On success: the title is the resolved one; cover, description, status and genres are copied through their rules, with genre order kept. Exactly two more menus follow, author then artist, both with the same full staff labels. The author and the artist are the two staff choices, in that order. |
| `Anilist.CreditedNamesComeFromStaff` | src/anilist.rs:230-240 | A credited author or artist is the full name of some staff edge. |
| `Anilist.SkipBothStaff` | src/anilist.rs:240-258 | With staff present and a resolved title, Esc on both staff prompts still gives a record, with no author and no artist. |
| `Anilist.PickAuthorSkipArtist` | src/anilist.rs:240-258 | Picking staff member i as author and pressing Esc for the artist gives a record whose author is member i's full name and whose artist is missing. |
| `Anilist.CoverFallback` | src/anilist.rs:249-252 | The cover is the first present of extraLarge, large, medium. It is missing exactly when all three are. |
| `Anilist.PickCover` | src/anilist.rs:249-252 | The cover is missing exactly when all three sizes are; otherwise it is one of the three. The order of preference is `Anilist.CoverFallback`. |
| `Anilist.FirstPresent` | src/anilist.rs:249-252 | The first present value of a list; none exactly when all are missing. |
| `Anilist.Sanitize` | src/anilist.rs:242-245 | `None` stays `None`. `Some(s)` becomes `Some` of the tag-stripped text, never longer than `s`. |
| `Anilist.SanitizeUnchangedIff` | src/anilist.rs:242-245 | A description is unchanged exactly when it holds no tag. A text without `<` is always unchanged. |
| `Anilist.SearchLabel` | src/anilist.rs:167-190 | Both titles give `"eng / rom"`, even when equal. One title gives that title. Neither gives a formatting error. |
| `Anilist.SearchLabels` | src/anilist.rs:287 | The hits can be listed exactly when every hit has a title; the labels are then in hit order. |
| `Anilist.SearchManga` | src/anilist.rs:287-289 | The result is the id of the hit the operator picked. Esc is an error. An empty list is an error. A hit without any title makes the listing fail. |
| `Tags.WordRun` | src/anilist.rs:242 | The length of the run of word characters at the front of the text, never more than the text; its maximality is `Tags.WordRunMaximal`. |
| `Tags.WordRunMaximal` | src/anilist.rs:242 | The run is made of word characters and is not followed by one. |
| `Tags.TagLenIsMatch` | src/anilist.rs:242 | A prefix of the text matches `</?\w+>` exactly when it has the length `TagLen` reports. So the match at a position is unique, and there is none when `TagLen` is 0. |
| `Tags.LeftmostTagIsLeftmost` | src/anilist.rs:245 | No match starts before the position `LeftmostTag` reports, and a match starts there unless that position is the end of the text. |
| `Tags.StripTags` | src/anilist.rs:242-245 | The scan never lengthens the text; that it equals `replace_all` is `Tags.StripTagsIsReplaceAll`. |
| `Tags.ReplaceAll` | src/anilist.rs:245 | The leftmost-match replacement never lengthens the text. |
| `Tags.StripPlainPrefix` | src/anilist.rs:245 | Text before the first match is copied unchanged. |
| `Tags.StripTagsIsReplaceAll` | src/anilist.rs:242-245 | The one-pass scan equals `replace_all`: copy up to the leftmost match, drop it, resume after it. |
| `Tags.StripTagsUnchangedIff` | src/anilist.rs:242-245 | The text is unchanged exactly when it holds no match. Otherwise it gets strictly shorter. |
| `Tags.DropTag` | src/anilist.rs:242-245 | A tag at the front is removed, whatever follows. |
| `Tags.KeepPlain` | src/anilist.rs:242-245 | Text without `<` at the front is kept, whatever follows. |
| `Tags.PlainUnchanged` | src/anilist.rs:242-245 | Text without `<` is unchanged. |
| `Tags.StripWrapped` | src/anilist.rs:242-245 | Text between `<w>` and `</w>` keeps its words and loses both tags. |
| `Tags.StripBoldExample` | src/anilist.rs:242-245 | `<b>Hello</b> World` becomes `Hello World`. |
| `Tags.AttributeTagKept` | src/anilist.rs:242 | `<a href="x">` is not removed, because the space is not a word character. |
| `Tags.NotIdempotent` | src/anilist.rs:242-245 | `<<b>b>` becomes `<b>`, and stripping again gives the empty text, so the clean-up is not idempotent. |
| `Komga.StatusTable` | src/komga.rs:137-145 | Finished→ENDED, Releasing and NotYetReleased→ONGOING, Cancelled→ABANDONED, Hiatus→HIATUS. That pair is the only collapse. |
| `Komga.KomgaStatus` | src/komga.rs:137-145 | Every status lands in Komga's four values; the full table is `Komga.StatusTable`. |
| `Komga.ApiUrl` | src/komga.rs:19 | The URL is the server URL, then `/api/v1/`, then the slug. |
| `Komga.AuthPassword` | src/komga.rs:21 | The password is sent only when it is non-empty; otherwise none. |
| `Komga.RequestShape` | src/komga.rs:12-37 | GET and PATCH requests address the same URL and query. Both authenticate as the email, with the filtered password. A GET has no body, and a PATCH carries its body. |
| `Komga.GetRequest` | src/komga.rs:12-23 | A GET has no body and goes to the server URL followed by `/api/v1/` and the slug. |
| `Komga.PatchRequest` | src/komga.rs:25-38 | A PATCH carries the given body and goes to the server URL followed by `/api/v1/` and the slug. |
| `Komga.EntryLabels` | src/komga.rs:51-55 | A library or series is shown by its name, in list order. |
| `Komga.GetLibrary` | src/komga.rs:57-70 | Exactly one library gives its id with no prompt. Otherwise the id of the picked library; Esc and an empty list are errors. |
| `Komga.GetEntry` | src/komga.rs:72-86 | The picked series, even when there is only one; Esc and an empty list are errors. |
| `Komga.SeriesBodyFields` | src/komga.rs:89-95 | `title` and `titleSort` both equal the title. `genres` are the genres in order. `summary` is the description, absent when it is absent. `status` is the mapped status. |
| `Komga.SeriesBody` | src/komga.rs:89-95 | The series body is series metadata whose status is one of Komga's four values; the fields are `Komga.SeriesBodyFields`. |
| `Komga.CreditsShape` | src/komga.rs:113-125 | One entry per present name. The writer entry (the author) precedes the penciller entry (the artist). Every role is one of the two, and every name is the author or the artist. The list is empty exactly when both are missing. One name may appear twice. |
| `Komga.Credits` | src/komga.rs:113-125 | One credit per present name; order and roles are `Komga.CreditsShape`. |
| `Komga.UpdateInfo` | src/komga.rs:88-135 | The series PATCH is always sent first. Without an author and an artist nothing else happens. Otherwise the book lookup (numberSort ascending, one per page) follows. An empty book list then ends in `NoBooks`. If not, the credits PATCH goes to the first book's id. Every request carries the same authentication. |
| `Scenario.BerserkRun` | src/anilist.rs:206-258 | Equal titles, one staff member picked twice, and a description with `<p>` tags give title "Berserk", description "Dark tale", status ONGOING and credits writer then penciller for the same name. |

## Left out

- HTTP transport: the `reqwest` clients, `send`, `json`, the GraphQL query texts and the AniList endpoint. Responses are decoded values given as parameters, and every send is assumed to succeed. Transport and decoding failures are not modelled.
- serde (de)serialisation and its rename attributes: the records are plain datatypes. The staff edge is flattened to `(node.name.full, role)`, and JSON bodies are the `Body` datatype.
- The free-text search prompt of `search_manga` (src/anilist.rs:270-272) and the search request: only the id selection from the decoded hits is modelled.
- src/config.rs: loading and storing the configuration and asking for credentials are persistent storage and terminal input.
- src/main.rs: it only calls the modelled operations in sequence.
- Prompt rendering, filtering and help texts: a prompt is its message, its labels and whether it can be skipped. The operator's filtering is folded into the index picked.
- `Prompt.Select`: a `Pick` that names no option gives `NoSuchOption`, which the real widget can never produce. An answer script that runs out counts as Ctrl-C.
- `Tags.IsWordChar`: only ASCII letters, digits and `_` are word characters. Rust's `\w` also covers other Unicode letters and digits, so a tag whose name uses them is not stripped by the model.
- `Anilist.U32`: the id is only range-checked; nothing in the model does arithmetic on it.
- `Komga.UpdateInfo`: the server sorts the book list (numberSort ascending, one per page). The model takes the first element of the list it is given and does not model the sort.

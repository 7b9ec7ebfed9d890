/** The Komga side: the requests sent to the library server, the choice of
    library and series, and the PATCH bodies built from a `MangaInfo`. */
module Komga {
  import opened Common
  import opened Prompt
  import Anilist

  const ApiSlug := "api/v1"
  const LibraryMessage := "Select library:"
  const EntryMessage := "Select entry:"
  const WriterRole := "writer"
  const PencillerRole := "penciller"

  /** The query of the book lookup: first book by number, one per page. */
  const BooksQuery := [("sort", "metadata.numberSort,asc"), ("size", "1"), ("page", "0")]

  datatype Config = Config(url: string, email: string, password: string)

  /** A library or a series: an id and the name shown to the operator. */
  datatype KomgaEntry = KomgaEntry(id: string, name: string)

  datatype Verb = Get | Patch

  datatype Credit = Credit(name: string, role: string)

  /** The JSON bodies the program sends. */
  datatype Body =
    | NoBody
    | SeriesMetadata(genres: seq<string>, summary: Option<string>, title: string, titleSort: string, status: string)
    | BookMetadata(authors: seq<Credit>)

  /** An HTTP request with basic authentication: `email` as the user and
      `password` only when there is one. */
  datatype Request = Request(
    verb: Verb,
    url: string,
    query: seq<(string, string)>,
    body: Body,
    user: string,
    password: Option<string>)

  /** AniList's publication status in Komga's vocabulary. */
  function KomgaStatus(s: Anilist.Status): (r: string)
    ensures r in {"ENDED", "ONGOING", "ABANDONED", "HIATUS"}
  {
    match s
    case Finished => "ENDED"
    case Releasing => "ONGOING"
    case NotYetReleased => "ONGOING"
    case Cancelled => "ABANDONED"
    case Hiatus => "HIATUS"
  }

  /** The status table is total over AniList's five values, lands in Komga's
      four, and merges exactly one pair: releasing and not yet released. */
  lemma StatusTable(s: Anilist.Status, t: Anilist.Status)
    ensures KomgaStatus(s) in {"ENDED", "ONGOING", "ABANDONED", "HIATUS"}
    ensures KomgaStatus(s) == "ENDED" <==> s == Anilist.Finished
    ensures KomgaStatus(s) == "ONGOING" <==> s == Anilist.Releasing || s == Anilist.NotYetReleased
    ensures KomgaStatus(s) == "ABANDONED" <==> s == Anilist.Cancelled
    ensures KomgaStatus(s) == "HIATUS" <==> s == Anilist.Hiatus
    ensures KomgaStatus(s) == KomgaStatus(t) && s != t <==>
              {s, t} == {Anilist.Releasing, Anilist.NotYetReleased}
  {
  }

  /** `"{url}/api/v1/{slug}"`. */
  function ApiUrl(cfg: Config, slug: string): (r: string)
    ensures |r| == |cfg.url| + 8 + |slug|
    ensures r[..|cfg.url|] == cfg.url
    ensures r[|cfg.url|..|cfg.url| + 8] == "/api/v1/"
    ensures r[|cfg.url| + 8..] == slug
  {
    cfg.url + "/" + ApiSlug + "/" + slug
  }

  /** The password goes with the request only when it is not empty. */
  function AuthPassword(cfg: Config): (r: Option<string>)
    ensures r.None? <==> cfg.password == ""
    ensures r.Some? ==> r.value == cfg.password
  {
    if cfg.password != "" then Some(cfg.password) else None
  }

  /** `send_get_request`, as the request it sends. */
  function GetRequest(cfg: Config, slug: string, query: seq<(string, string)>): (r: Request)
    ensures r.verb == Get && r.body == NoBody
    ensures |r.url| == |cfg.url| + 8 + |slug|
    ensures r.url[..|cfg.url|] == cfg.url && r.url[|cfg.url|..] == "/api/v1/" + slug
  {
    Request(Get, ApiUrl(cfg, slug), query, NoBody, cfg.email, AuthPassword(cfg))
  }

  /** `send_patch_request`, as the request it sends. */
  function PatchRequest(cfg: Config, slug: string, query: seq<(string, string)>, body: Body): (r: Request)
    ensures r.verb == Patch && r.body == body
    ensures |r.url| == |cfg.url| + 8 + |slug|
    ensures r.url[..|cfg.url|] == cfg.url && r.url[|cfg.url|..] == "/api/v1/" + slug
  {
    Request(Patch, ApiUrl(cfg, slug), query, body, cfg.email, AuthPassword(cfg))
  }

  /** Both request helpers address `"{url}/api/v1/{slug}"` and authenticate
      as the configured email, with the password only when it is not empty. */
  lemma RequestShape(cfg: Config, slug: string, query: seq<(string, string)>, body: Body)
    ensures var g, p := GetRequest(cfg, slug, query), PatchRequest(cfg, slug, query, body);
            && g.verb == Get && p.verb == Patch
            && g.url == p.url == ApiUrl(cfg, slug)
            && g.query == p.query == query
            && g.body == NoBody && p.body == body
            && g.user == p.user == cfg.email
            && g.password == p.password
            && (g.password.None? <==> cfg.password == "")
            && (g.password.Some? ==> g.password.value == cfg.password)
  {
  }

  /** `Display for KomgaEntry` is the name; the labels of a list, in order. */
  function EntryLabels(entries: seq<KomgaEntry>): (r: seq<string>)
    ensures |r| == |entries|
    ensures forall i :: 0 <= i < |entries| ==> r[i] == entries[i].name
  {
    if entries == [] then [] else [entries[0].name] + EntryLabels(entries[1..])
  }

  /** `get_library` after the list is fetched: a single library is taken
      without a prompt; otherwise the operator must pick one. */
  function GetLibrary(libraries: seq<KomgaEntry>, d: Dialog): (r: Result<(string, Dialog)>)
    ensures |libraries| == 1 ==> r == Ok((libraries[0].id, d))
    ensures libraries == [] ==> r == Err(EmptyOptions)
    ensures |libraries| > 1 && NextAnswer(d) == Escape ==> r == Err(PromptCancelled)
    ensures |libraries| != 1 ==>
              && (r.Ok? <==> libraries != [] && NextAnswer(d).Pick? && NextAnswer(d).index < |libraries|)
              && (r.Ok? ==> r.value.0 == libraries[NextAnswer(d).index].id)
              && (r.Ok? ==> r.value.1 == Answered(d, Menu(LibraryMessage, EntryLabels(libraries), false)))
    ensures r.Ok? ==> exists i :: 0 <= i < |libraries| && libraries[i].id == r.value.0
  {
    if |libraries| == 1 then Ok((libraries[0].id, d))
    else
      var choice :- Select(d, LibraryMessage, EntryLabels(libraries));
      Ok((libraries[choice.0].id, choice.1))
  }

  /** `get_entry` after the series list is fetched: the operator must pick
      one, even when there is only one. */
  function GetEntry(entries: seq<KomgaEntry>, d: Dialog): (r: Result<(KomgaEntry, Dialog)>)
    ensures entries == [] ==> r == Err(EmptyOptions)
    ensures entries != [] && NextAnswer(d) == Escape ==> r == Err(PromptCancelled)
    ensures r.Ok? <==> entries != [] && NextAnswer(d).Pick? && NextAnswer(d).index < |entries|
    ensures r.Ok? ==> r.value.0 == entries[NextAnswer(d).index]
    ensures r.Ok? ==> r.value.1 == Answered(d, Menu(EntryMessage, EntryLabels(entries), false))
  {
    var choice :- Select(d, EntryMessage, EntryLabels(entries));
    Ok((entries[choice.0], choice.1))
  }

  /** The series PATCH body of `update_info`. */
  function SeriesBody(info: Anilist.MangaInfo): (r: Body)
    ensures r.SeriesMetadata? && r.status in {"ENDED", "ONGOING", "ABANDONED", "HIATUS"}
  {
    SeriesMetadata(
      genres := info.genres,
      summary := info.description,
      title := info.title,
      titleSort := info.title,
      status := KomgaStatus(info.status))
  }

  /** The series body carries the title twice (as title and sort title), the
      genres in their order, the description as the summary (absent stays
      absent), and the status in Komga's vocabulary. */
  lemma SeriesBodyFields(info: Anilist.MangaInfo)
    ensures var b := SeriesBody(info);
            && b.SeriesMetadata?
            && b.title == b.titleSort == info.title
            && b.genres == info.genres
            && (b.summary.None? <==> info.description.None?)
            && b.summary == info.description
            && b.status == KomgaStatus(info.status)
            && b.status in {"ENDED", "ONGOING", "ABANDONED", "HIATUS"}
  {
    StatusTable(info.status, info.status);
  }

  /** The credit for one optional name under a fixed role. */
  function CreditFor(name: Option<string>, role: string): seq<Credit> {
    if name.Some? then [Credit(name.value, role)] else []
  }

  /** The credit list of the book PATCH: the author as writer, then the
      artist as penciller, each only when present. */
  function Credits(author: Option<string>, artist: Option<string>): (r: seq<Credit>)
    ensures |r| == Present(author, artist)
  {
    CreditFor(author, WriterRole) + CreditFor(artist, PencillerRole)
  }

  /** The number of names present. */
  function Present(author: Option<string>, artist: Option<string>): nat {
    (if author.Some? then 1 else 0) + (if artist.Some? then 1 else 0)
  }

  /** One entry per present name; the writer comes first and the penciller
      last; every role is one of the two; no entry is made up; the list is
      empty exactly when both names are missing. Nothing stops one name from
      being credited twice. */
  lemma CreditsShape(author: Option<string>, artist: Option<string>)
    ensures var c := Credits(author, artist);
            && |c| == Present(author, artist)
            && (c == [] <==> author.None? && artist.None?)
            && (author.Some? ==> c[0] == Credit(author.value, WriterRole))
            && (artist.Some? ==> c[|c| - 1] == Credit(artist.value, PencillerRole))
            && (forall i :: 0 <= i < |c| ==> c[i].role == WriterRole || c[i].role == PencillerRole)
            && (forall i, j :: 0 <= i < j < |c| ==> c[i].role == WriterRole && c[j].role == PencillerRole)
            && (forall i :: 0 <= i < |c| ==> Some(c[i].name) == author || Some(c[i].name) == artist)
            && (author.Some? && artist.Some? && author == artist ==> c[0].name == c[1].name)
  {
    var c := Credits(author, artist);
    match (author, artist)
    case (Some(a), Some(b)) =>
      assert c == [Credit(a, WriterRole), Credit(b, PencillerRole)];
    case (Some(a), None) =>
      assert c == [Credit(a, WriterRole)];
    case (None, Some(b)) =>
      assert c == [Credit(b, PencillerRole)];
    case (None, None) =>
      assert c == [];
  }

  /** `update_info` with the book lookup's answer given as `books` (the
      server's list sorted by number). It returns the requests sent, in
      order, and how the call ends. The series PATCH always goes first; the
      book lookup and the book PATCH happen only when an author or an
      artist was chosen; an empty book list ends the run after the lookup. */
  method UpdateInfo(cfg: Config, info: Anilist.MangaInfo, seriesId: string, books: seq<KomgaEntry>)
    returns (sent: seq<Request>, result: Result<()>)
    ensures |sent| >= 1
    ensures sent[0] == PatchRequest(cfg, "series/" + seriesId + "/metadata", [], SeriesBody(info))
    ensures info.author.None? && info.artist.None? ==> |sent| == 1 && result == Ok(())
    ensures info.author.Some? || info.artist.Some? ==>
              && |sent| >= 2
              && sent[1] == GetRequest(cfg, "series/" + seriesId + "/books", BooksQuery)
              && (books == [] ==> |sent| == 2 && result == Err(NoBooks))
              && (books != [] ==>
                    && |sent| == 3
                    && result == Ok(())
                    && sent[2] == PatchRequest(cfg, "books/" + books[0].id + "/metadata", [],
                                               BookMetadata(Credits(info.author, info.artist))))
    ensures forall i :: 0 <= i < |sent| ==> sent[i].user == cfg.email && sent[i].password == AuthPassword(cfg)
  {
    sent := [PatchRequest(cfg, "series/" + seriesId + "/metadata", [], SeriesBody(info))];
    result := Ok(());
    if info.author.Some? || info.artist.Some? {
      sent := sent + [GetRequest(cfg, "series/" + seriesId + "/books", BooksQuery)];
      if books == [] {
        result := Err(NoBooks);
        return;
      }
      var bookId := books[0].id;
      var bookInfo: seq<Credit> := [];
      if info.author.Some? {
        bookInfo := bookInfo + [Credit(info.author.value, WriterRole)];
      }
      assert bookInfo == CreditFor(info.author, WriterRole);
      if info.artist.Some? {
        bookInfo := bookInfo + [Credit(info.artist.value, PencillerRole)];
      }
      assert bookInfo == Credits(info.author, info.artist);
      sent := sent + [PatchRequest(cfg, "books/" + bookId + "/metadata", [], BookMetadata(bookInfo))];
    }
  }
}

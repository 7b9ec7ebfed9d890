/** The AniList side: a decoded `Media` record is reduced to a `MangaInfo`.
    The operator settles the title when the English and romaji titles differ,
    and picks (or skips) the author and then the artist from the staff list. */
module Anilist {
  import opened Common
  import opened Prompt
  import Tags

  /** AniList ids are `u32`. */
  newtype U32 = x: int | 0 <= x < 0x1_0000_0000

  datatype Title = Title(romaji: Option<string>, english: Option<string>)

  datatype Cover = Cover(extraLarge: Option<string>, large: Option<string>, medium: Option<string>)

  /** One staff edge, flattened: `fullName` is `node.name.full`, `role` is the
      free-text credit ("Story & Art", "Story", ...). */
  datatype StaffEdge = StaffEdge(fullName: string, role: string)

  datatype Status = Finished | Releasing | NotYetReleased | Cancelled | Hiatus

  /** The record the detail query returns. */
  datatype Media = Media(
    title: Title,
    coverImage: Cover,
    description: Option<string>,
    status: Status,
    genres: seq<string>,
    staff: seq<StaffEdge>)

  /** One hit of the search query. */
  datatype SearchMedia = SearchMedia(id: U32, title: Title)

  datatype MangaInfo = MangaInfo(
    title: string,
    cover: Option<string>,
    description: Option<string>,
    status: Status,
    genres: seq<string>,
    artist: Option<string>,
    author: Option<string>)

  datatype StaffOption = StaffOption(name: string, role: string)

  const TitleMessage := "Select title"
  const AuthorMessage := "Select author:"
  const ArtistMessage := "Select artist:"
  const EntryMessage := "Select entry:"

  /** The text of `format!("{}{}{}", a, sep, b)`, read back part by part. */
  function Join(a: string, sep: string, b: string): (r: string)
    ensures |r| == |a| + |sep| + |b|
    ensures r[..|a|] == a && r[|a|..|a| + |sep|] == sep && r[|a| + |sep|..] == b
  {
    a + sep + b
  }

  /** The title: equal English and romaji titles, or a single one, are taken
      without a prompt; two different ones are offered as [English, romaji];
      with neither the run fails. */
  function ResolveTitle(t: Title, d: Dialog): (r: Result<(string, Dialog)>)
    ensures t.english.None? && t.romaji.None? ==> r == Err(NoTitleAvailable)
    ensures t.english.Some? && t.romaji.None? ==> r == Ok((t.english.value, d))
    ensures t.english.None? && t.romaji.Some? ==> r == Ok((t.romaji.value, d))
    ensures t.english.Some? && t.english == t.romaji ==> r == Ok((t.english.value, d))
    ensures t.english.Some? && t.romaji.Some? && t.english != t.romaji ==>
              && (r.Ok? <==> NextAnswer(d).Pick? && NextAnswer(d).index < 2)
              && (NextAnswer(d) == Escape ==> r == Err(PromptCancelled))
              && (r.Ok? ==>
                    && r.value.1 == Answered(d, Menu(TitleMessage, [t.english.value, t.romaji.value], false))
                    && r.value.0 == [t.english.value, t.romaji.value][NextAnswer(d).index])
    ensures r.Ok? ==> Some(r.value.0) == t.english || Some(r.value.0) == t.romaji
    ensures r.Ok? ==> (r.value.1 == d <==> !(t.english.Some? && t.romaji.Some? && t.english != t.romaji))
  {
    match (t.english, t.romaji)
    case (Some(eng), Some(rom)) =>
      if eng == rom then Ok((eng, d))
      else
        var options := [eng, rom];
        var choice :- Select(d, TitleMessage, options);
        Ok((options[choice.0], choice.1))
    case (Some(eng), None) => Ok((eng, d))
    case (None, Some(rom)) => Ok((rom, d))
    case (None, None) => Err(NoTitleAvailable)
  }

  /** One option per staff edge, in the order of the edges. */
  function StaffOptions(edges: seq<StaffEdge>): (r: seq<StaffOption>)
    ensures |r| == |edges|
    ensures forall i :: 0 <= i < |edges| ==> r[i] == StaffOption(edges[i].fullName, edges[i].role)
  {
    if edges == [] then []
    else [StaffOption(edges[0].fullName, edges[0].role)] + StaffOptions(edges[1..])
  }

  /** `Display for StaffOption`: "{name} - {role}". */
  function StaffLabel(o: StaffOption): (r: string)
    ensures r == Join(o.name, " - ", o.role)
  {
    o.name + " - " + o.role
  }

  /** The labels of a staff list, in order. */
  function StaffLabels(options: seq<StaffOption>): (r: seq<string>)
    ensures |r| == |options|
    ensures forall i :: 0 <= i < |options| ==> r[i] == StaffLabel(options[i])
  {
    if options == [] then []
    else [StaffLabel(options[0])] + StaffLabels(options[1..])
  }

  /** `get_staff_name`: a skippable choice among the staff options. Esc is
      "nobody" and not an error; a pick yields the option's name only. */
  function GetStaffName(options: seq<StaffOption>, message: string, d: Dialog): (r: Result<(Option<string>, Dialog)>)
    ensures options == [] ==> r == Err(EmptyOptions)
    ensures options != [] && NextAnswer(d) == Escape ==>
              r == Ok((None, Answered(d, Menu(message, StaffLabels(options), true))))
    ensures options != [] && NextAnswer(d) == Interrupt ==> r == Err(PromptInterrupted)
    ensures r.Ok? <==> options != [] && (NextAnswer(d).Escape? || (NextAnswer(d).Pick? && NextAnswer(d).index < |options|))
    ensures r.Ok? ==> r.value.1 == Answered(d, Menu(message, StaffLabels(options), true))
    ensures r.Ok? && NextAnswer(d).Pick? ==> r.value.0 == Some(options[NextAnswer(d).index].name)
  {
    var choice :- SelectSkippable(d, message, StaffLabels(options));
    Ok((if choice.0.Some? then Some(options[choice.0.value].name) else None, choice.1))
  }

  /** The first present value of a list of optional values. */
  function FirstPresent(xs: seq<Option<string>>): (r: Option<string>)
    ensures r.None? <==> forall i :: 0 <= i < |xs| ==> xs[i].None?
    ensures r.Some? ==> exists i :: 0 <= i < |xs| && xs[i] == r && forall j :: 0 <= j < i ==> xs[j].None?
  {
    if xs == [] then None
    else if xs[0].Some? then xs[0]
    else
      var r := FirstPresent(xs[1..]);
      assert forall i :: 1 <= i < |xs| ==> xs[i] == xs[1..][i - 1];
      r
  }

  /** The cover: extraLarge, else large, else medium. */
  function PickCover(c: Cover): (r: Option<string>)
    ensures r.None? <==> c.extraLarge.None? && c.large.None? && c.medium.None?
    ensures r.Some? ==> r == c.extraLarge || r == c.large || r == c.medium
  {
    c.extraLarge.Or(c.large.Or(c.medium))
  }

  /** The `or` chain is the first present size, in the order extraLarge,
      large, medium; the cover is missing only when all three are. */
  lemma CoverFallback(c: Cover)
    ensures PickCover(c) == FirstPresent([c.extraLarge, c.large, c.medium])
    ensures PickCover(c).None? <==> c.extraLarge.None? && c.large.None? && c.medium.None?
    ensures c.extraLarge.Some? ==> PickCover(c) == c.extraLarge
    ensures c.extraLarge.None? && c.large.Some? ==> PickCover(c) == c.large
    ensures c.extraLarge.None? && c.large.None? ==> PickCover(c) == c.medium
  {
    var xs := [c.extraLarge, c.large, c.medium];
    assert xs[1..] == [c.large, c.medium];
    assert xs[1..][1..] == [c.medium];
    assert xs[1..][1..][1..] == [];
    assert FirstPresent(xs[1..][1..]) == c.medium;
    assert FirstPresent(xs[1..]) == c.large.Or(c.medium);
  }

  /** The description with every `<w>` and `</w>` removed. */
  function Sanitize(description: Option<string>): (r: Option<string>)
    ensures r.None? <==> description.None?
    ensures r.Some? ==> r.value == Tags.StripTags(description.value)
    ensures r.Some? ==> |r.value| <= |description.value|
  {
    match description
    case None => None
    case Some(s) => Some(Tags.StripTags(s))
  }

  /** A description changes exactly when it holds a tag; text without `<`
      is left alone. */
  lemma SanitizeUnchangedIff(s: string)
    ensures Sanitize(Some(s)) == Some(s) <==> Tags.LeftmostTag(s) == |s|
    ensures (forall k :: 0 <= k < |s| ==> s[k] != '<') ==> Sanitize(Some(s)) == Some(s)
  {
    Tags.StripTagsUnchangedIff(s);
    if forall k :: 0 <= k < |s| ==> s[k] != '<' {
      Tags.PlainUnchanged(s);
    }
  }

  /** `Display for SearchMedia`: "{english} / {romaji}" when both are present
      (equal or not), the one present otherwise, and an error with neither. */
  function SearchLabel(m: SearchMedia): (r: Result<string>)
    ensures r.Err? <==> m.title.english.None? && m.title.romaji.None?
    ensures r.Err? ==> r.error == DisplayFailed
    ensures m.title.english.Some? && m.title.romaji.Some? ==>
              r == Ok(Join(m.title.english.value, " / ", m.title.romaji.value))
    ensures m.title.english.Some? && m.title.romaji.None? ==> r == Ok(m.title.english.value)
    ensures m.title.english.None? && m.title.romaji.Some? ==> r == Ok(m.title.romaji.value)
  {
    match (m.title.english, m.title.romaji)
    case (Some(eng), Some(rom)) => Ok(eng + " / " + rom)
    case (Some(eng), None) => Ok(eng)
    case (None, Some(rom)) => Ok(rom)
    case (None, None) => Err(DisplayFailed)
  }

  /** The labels of the search hits; one hit without a title fails them all. */
  function SearchLabels(ms: seq<SearchMedia>): (r: Result<seq<string>>)
    ensures r.Ok? <==> forall i :: 0 <= i < |ms| ==> SearchLabel(ms[i]).Ok?
    ensures r.Err? ==> r.error == DisplayFailed
    ensures r.Ok? ==> |r.value| == |ms| && forall i :: 0 <= i < |ms| ==> r.value[i] == SearchLabel(ms[i]).value
  {
    if ms == [] then Ok([])
    else
      var first :- SearchLabel(ms[0]);
      var rest :- SearchLabels(ms[1..]);
      assert forall i :: 1 <= i < |ms| ==> ms[i] == ms[1..][i - 1];
      Ok([first] + rest)
  }

  /** The id selection of `search_manga`: the id of the hit the operator
      picks. Esc is an error here, and a hit without a title makes listing
      the hits fail. */
  function SearchManga(ms: seq<SearchMedia>, d: Dialog): (r: Result<(U32, Dialog)>)
    ensures ms == [] ==> r == Err(EmptyOptions)
    ensures ms != [] && (exists i :: 0 <= i < |ms| && ms[i].title.english.None? && ms[i].title.romaji.None?) ==>
              r == Err(DisplayFailed)
    ensures SearchLabels(ms).Ok? && ms != [] && NextAnswer(d) == Escape ==> r == Err(PromptCancelled)
    ensures r.Ok? <==> SearchLabels(ms).Ok? && ms != [] && NextAnswer(d).Pick? && NextAnswer(d).index < |ms|
    ensures r.Ok? ==> r.value.0 == ms[NextAnswer(d).index].id
    ensures r.Ok? ==> r.value.1 == Answered(d, Menu(EntryMessage, SearchLabels(ms).value, false))
  {
    var labels :- SearchLabels(ms);
    var choice :- Select(d, EntryMessage, labels);
    Ok((ms[choice.0].id, choice.1))
  }

  /** `get_anilist_data` after the response is decoded: title first, then
      author, then artist, both from the same full staff list; the cover,
      description, status and genres need no operator. */
  function GetAnilistData(m: Media, d: Dialog): (r: Result<(MangaInfo, Dialog)>)
    ensures ResolveTitle(m.title, d).Err? ==> r == Err(ResolveTitle(m.title, d).error)
    ensures ResolveTitle(m.title, d).Ok? && m.staff == [] ==> r == Err(EmptyOptions)
    ensures ResolveTitle(m.title, d).Ok? ==>
              var author := GetStaffName(StaffOptions(m.staff), AuthorMessage, ResolveTitle(m.title, d).value.1);
              && (author.Err? ==> r == Err(author.error))
              && (author.Ok? ==>
                    var artist := GetStaffName(StaffOptions(m.staff), ArtistMessage, author.value.1);
                    && (artist.Err? ==> r == Err(artist.error))
                    && (artist.Ok? ==> r.Ok?))
    ensures r.Ok? ==>
              && ResolveTitle(m.title, d).Ok?
              && var (title, afterTitle) := ResolveTitle(m.title, d).value;
                 var labels := StaffLabels(StaffOptions(m.staff));
                 var info := r.value.0;
                 && info.title == title
                 && info.cover == PickCover(m.coverImage)
                 && info.description == Sanitize(m.description)
                 && info.status == m.status
                 && info.genres == m.genres
                 && r.value.1.shown == afterTitle.shown + [Menu(AuthorMessage, labels, true), Menu(ArtistMessage, labels, true)]
                 && var author := GetStaffName(StaffOptions(m.staff), AuthorMessage, afterTitle);
                    && author.Ok?
                    && info.author == author.value.0
                    && var artist := GetStaffName(StaffOptions(m.staff), ArtistMessage, author.value.1);
                       && artist.Ok?
                       && info.artist == artist.value.0
                       && r.value.1 == artist.value.1
  {
    var title :- ResolveTitle(m.title, d);
    var staff := StaffOptions(m.staff);
    var author :- GetStaffName(staff, AuthorMessage, title.1);
    var artist :- GetStaffName(staff, ArtistMessage, author.1);
    Ok((MangaInfo(
          title := title.0,
          cover := PickCover(m.coverImage),
          description := Sanitize(m.description),
          status := m.status,
          genres := m.genres,
          artist := artist.0,
          author := author.0),
        artist.1))
  }

  /** A credited name is always the full name of some staff edge. */
  lemma CreditedNamesComeFromStaff(m: Media, d: Dialog)
    requires GetAnilistData(m, d).Ok?
    ensures var info := GetAnilistData(m, d).value.0;
            && (info.author.Some? ==> exists i :: 0 <= i < |m.staff| && m.staff[i].fullName == info.author.value)
            && (info.artist.Some? ==> exists i :: 0 <= i < |m.staff| && m.staff[i].fullName == info.artist.value)
  {
    var afterTitle := ResolveTitle(m.title, d).value.1;
    var staff := StaffOptions(m.staff);
    var author := GetStaffName(staff, AuthorMessage, afterTitle).value;
    var artist := GetStaffName(staff, ArtistMessage, author.1).value;
    if author.0.Some? {
      assert staff[NextAnswer(afterTitle).index].name == m.staff[NextAnswer(afterTitle).index].fullName;
    }
    if artist.0.Some? {
      assert staff[NextAnswer(author.1).index].name == m.staff[NextAnswer(author.1).index].fullName;
    }
  }

  /** Esc on both staff prompts is not an error: the run still yields the
      record, with neither an author nor an artist. */
  lemma SkipBothStaff(m: Media, d: Dialog)
    requires m.staff != []
    requires ResolveTitle(m.title, d).Ok?
    requires var a := ResolveTitle(m.title, d).value.1.answers; |a| >= 2 && a[0] == Escape && a[1] == Escape
    ensures GetAnilistData(m, d).Ok?
    ensures GetAnilistData(m, d).value.0.author.None?
    ensures GetAnilistData(m, d).value.0.artist.None?
  {
    var afterTitle := ResolveTitle(m.title, d).value.1;
    assert NextAnswer(afterTitle) == Escape;
    var afterAuthor := Answered(afterTitle, Menu(AuthorMessage, StaffLabels(StaffOptions(m.staff)), true));
    assert afterAuthor.answers == afterTitle.answers[1..];
    assert NextAnswer(afterAuthor) == Escape;
  }

  /** An author picked and the artist skipped: the record credits only the
      picked staff member, as author. */
  lemma PickAuthorSkipArtist(m: Media, d: Dialog, i: nat)
    requires i < |m.staff|
    requires ResolveTitle(m.title, d).Ok?
    requires var a := ResolveTitle(m.title, d).value.1.answers; |a| >= 2 && a[0] == Pick(i) && a[1] == Escape
    ensures GetAnilistData(m, d).Ok?
    ensures GetAnilistData(m, d).value.0.author == Some(m.staff[i].fullName)
    ensures GetAnilistData(m, d).value.0.artist.None?
  {
    var afterTitle := ResolveTitle(m.title, d).value.1;
    assert NextAnswer(afterTitle) == Pick(i);
    var afterAuthor := Answered(afterTitle, Menu(AuthorMessage, StaffLabels(StaffOptions(m.staff)), true));
    assert afterAuthor.answers == afterTitle.answers[1..];
    assert NextAnswer(afterAuthor) == Escape;
  }
}

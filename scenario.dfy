/** A whole run on one record, end to end: both titles equal, so the title
    is taken without a prompt; the single staff member is picked as author
    and as artist; the description loses its paragraph tags. */
module Scenario {
  import opened Common
  import opened Prompt
  import opened Anilist
  import Komga
  import Tags

  function BerserkRecord(): Media {
    Media(
      title := Title(romaji := Some("Berserk"), english := Some("Berserk")),
      coverImage := Cover(None, None, None),
      description := Some(Tags.OpeningTag("p") + "Dark tale" + Tags.ClosingTag("p") + ""),
      status := Releasing,
      genres := ["Action", "Fantasy"],
      staff := [StaffEdge("Kentaro Miura", "Story & Art")])
  }

  lemma BerserkRun()
    ensures var r := GetAnilistData(BerserkRecord(), Dialog([Pick(0), Pick(0)], []));
            && r.Ok?
            && r.value.0 == MangaInfo(
                 title := "Berserk",
                 cover := None,
                 description := Some("Dark tale"),
                 status := Releasing,
                 genres := ["Action", "Fantasy"],
                 artist := Some("Kentaro Miura"),
                 author := Some("Kentaro Miura"))
            && r.value.1.answers == []
            && |r.value.1.shown| == 2
            && Komga.KomgaStatus(r.value.0.status) == "ONGOING"
            && Komga.Credits(r.value.0.author, r.value.0.artist)
               == [Komga.Credit("Kentaro Miura", "writer"), Komga.Credit("Kentaro Miura", "penciller")]
  {
    Tags.StripWrapped("p", "Dark tale", "");
    assert "Dark tale" + "" == "Dark tale";
  }
}

/** The gallery page's logic (`src/pages/Photos.tsx`): loading the photo
    sections and turning database rows into the records the gallery shows. */
module Photos {
  import opened Js
  import opened Text

  /** A photo as stored: `alt` may be missing or empty. */
  datatype PhotoRow = PhotoRow(imageUrl: string, alt: Nullable<string>)

  /** A `photo_sections` row. */
  datatype SectionRow = SectionRow(id: string, date: string, occasion: Nullable<string>, photos: seq<PhotoRow>)

  datatype Photo = Photo(id: string, imageUrl: string, alt: string)

  /** A gallery section; `title` is absent when the occasion is. */
  datatype Section = Section(id: string, date: string, title: Nullable<string>, photos: seq<Photo>)

  /** The id of the `index`-th photo of a section. */
  function PhotoId(sectionId: string, index: nat): string {
    sectionId + "-" + Decimal(index)
  }

  /** The alt text used when a photo has none. */
  function DefaultAlt(index: nat): string {
    "Photo " + Decimal(index + 1)
  }

  /** The photo records of one section, in row order. */
  function MapPhotos(sectionId: string, rows: seq<PhotoRow>): (photos: seq<Photo>)
    ensures |photos| == |rows|
    ensures forall i :: 0 <= i < |rows| ==>
      && photos[i].id == PhotoId(sectionId, i)
      && photos[i].imageUrl == rows[i].imageUrl
      && (Truthy(rows[i].alt) ==> photos[i].alt == rows[i].alt.value)
      && (!Truthy(rows[i].alt) ==> photos[i].alt == DefaultAlt(i))
  {
    seq(|rows|, i requires 0 <= i < |rows| =>
      Photo(PhotoId(sectionId, i), rows[i].imageUrl, Or(rows[i].alt, DefaultAlt(i))))
  }

  /** One row to one section: id and date copied, the occasion as the title
      when it is non-empty. */
  function MapSection(row: SectionRow): (s: Section)
    ensures s.id == row.id && s.date == row.date
    ensures Truthy(row.occasion) ==> s.title == row.occasion
    ensures !Truthy(row.occasion) ==> s.title == Null
    ensures s.photos == MapPhotos(row.id, row.photos)
  {
    Section(row.id, row.date, OrNull(row.occasion), MapPhotos(row.id, row.photos))
  }

  /** Rows to sections, keeping their number and order. */
  function MapSections(rows: seq<SectionRow>): (sections: seq<Section>)
    ensures |sections| == |rows|
    ensures forall i :: 0 <= i < |rows| ==> sections[i] == MapSection(rows[i])
  {
    seq(|rows|, i requires 0 <= i < |rows| => MapSection(rows[i]))
  }

  /** Two photo ids are equal only for the same section id and position:
      the decimal part holds no `-`, so the last `-` separates the two. */
  lemma {:induction false} PhotoIdInjective(s1: string, i1: nat, s2: string, i2: nat)
    requires PhotoId(s1, i1) == PhotoId(s2, i2)
    ensures s1 == s2 && i1 == i2
  {
    var d1, d2 := Decimal(i1), Decimal(i2);
    var id := PhotoId(s1, i1);
    assert id == s1 + "-" + d1 == s2 + "-" + d2;
    // after each reading's `-` only digits follow, so both `-` are the same
    assert forall k :: |s1| < k < |id| ==> id[k] == d1[k - |s1| - 1];
    assert forall k :: |s2| < k < |id| ==> id[k] == d2[k - |s2| - 1];
    assert id[|s1|] == '-' && id[|s2|] == '-';
    assert |s1| == |s2|;
    assert d1 == id[|s1| + 1..] == d2;
    DecimalInjective(i1, i2);
    assert s1 == id[..|s1|] == s2;
  }

  /** Photo ids are distinct within a section. */
  lemma PhotoIdsDistinctInSection(row: SectionRow)
    ensures var s := MapSection(row);
      forall i, j :: 0 <= i < j < |s.photos| ==> s.photos[i].id != s.photos[j].id
  {
    var s := MapSection(row);
    forall i, j | 0 <= i < j < |s.photos|
      ensures s.photos[i].id != s.photos[j].id
    {
      if s.photos[i].id == s.photos[j].id {
        PhotoIdInjective(row.id, i, row.id, j);
      }
    }
  }

  /** With distinct section ids, photo ids are distinct across the whole
      gallery. */
  lemma PhotoIdsDistinctAcrossSections(rows: seq<SectionRow>, a: nat, b: nat, i: nat, j: nat)
    requires a < |rows| && b < |rows|
    requires a != b ==> rows[a].id != rows[b].id
    requires i < |rows[a].photos| && j < |rows[b].photos|
    requires (a, i) != (b, j)
    ensures MapSections(rows)[a].photos[i].id != MapSections(rows)[b].photos[j].id
  {
    if MapSections(rows)[a].photos[i].id == MapSections(rows)[b].photos[j].id {
      PhotoIdInjective(rows[a].id, i, rows[b].id, j);
    }
  }

  datatype PageState = PageState(sections: seq<Section>, loading: bool, error: Nullable<string>)

  const InitialPage: PageState := PageState([], true, Null)

  const NotConfiguredMessage: string := "Supabase is not configured. Please set up your credentials in the .env file."
  const FetchFallbackMessage: string := "Failed to load photos"

  datatype FetchError = FetchError(message: Nullable<string>)

  /** The answer to the sections query (already ordered by date, newest
      first, by the database). */
  datatype PhotosAnswer = PhotosAnswer(data: Nullable<seq<SectionRow>>, error: Nullable<FetchError>)

  /** `fetchPhotos()`: without configuration, or on a query error, report it
      and keep the sections; otherwise show the mapped rows when there are
      any. Loading is over on every path. */
  function FetchPhotos(configured: bool, st: PageState, answer: PhotosAnswer): (r: PageState)
    ensures !r.loading
    ensures !configured ==> r.sections == st.sections && r.error == Some(NotConfiguredMessage)
    ensures configured && answer.error.Some? ==>
      r.sections == st.sections && r.error == Some(Or(answer.error.value.message, FetchFallbackMessage))
    ensures configured && answer.error.Null? ==>
      r.error == st.error &&
      r.sections == (if answer.data.Some? then MapSections(answer.data.value) else st.sections)
  {
    if !configured then
      st.(error := Some(NotConfiguredMessage), loading := false)
    else if answer.error.Some? then
      st.(error := Some(Or(answer.error.value.message, FetchFallbackMessage)), loading := false)
    else if answer.data.Some? then
      st.(sections := MapSections(answer.data.value), loading := false)
    else
      st.(loading := false)
  }

  /** Section ids are pairwise distinct. */
  predicate DistinctIds(rows: seq<SectionRow>) {
    forall a, b :: 0 <= a < b < |rows| ==> rows[a].id != rows[b].id
  }

  /** After a successful fetch of rows with distinct ids, every photo the
      gallery shows has its own id, within and across sections. */
  lemma FetchedPhotoIdsDistinct(st: PageState, rows: seq<SectionRow>, a: nat, i: nat, b: nat, j: nat)
    requires DistinctIds(rows)
    requires var r := FetchPhotos(true, st, PhotosAnswer(Some(rows), Null));
      a < |r.sections| && b < |r.sections| &&
      i < |r.sections[a].photos| && j < |r.sections[b].photos| && (a, i) != (b, j)
    ensures var r := FetchPhotos(true, st, PhotosAnswer(Some(rows), Null));
      r.sections[a].photos[i].id != r.sections[b].photos[j].id
  {
    if a != b {
      if a < b { assert rows[a].id != rows[b].id; } else { assert rows[b].id != rows[a].id; }
    }
    PhotoIdsDistinctAcrossSections(rows, a, b, i, j);
  }

  /** A fetch that brings rows replaces the sections by exactly those rows,
      mapped, and keeps no earlier section. */
  lemma FetchReplacesSections(st1: PageState, st2: PageState, configured: bool, answer: PhotosAnswer)
    requires configured && answer.error.Null? && answer.data.Some?
    ensures FetchPhotos(configured, st1, answer).sections == FetchPhotos(configured, st2, answer).sections
    ensures |FetchPhotos(configured, st1, answer).sections| == |answer.data.value|
  {
  }

  /** Without configuration no query is made: the outcome does not depend on
      any answer. */
  lemma UnconfiguredIgnoresAnswer(st: PageState, a1: PhotosAnswer, a2: PhotosAnswer)
    ensures FetchPhotos(false, st, a1) == FetchPhotos(false, st, a2)
  {
  }
}

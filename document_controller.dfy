/**
 * The document-store `MediaController` of server/Controllers/MediaController.cs. The
 * Firestore collections `mediaItems` and `reports` are maps from document id to the
 * document's fields; a query is the equality filters and the limit the controller
 * puts on it.
 */
module DocumentController {
  import opened Results
  import opened Validation
  import opened Collections

  /** A Firestore `Timestamp`, as nanoseconds since the Unix epoch. */
  type Timestamp = int

  /** `Timestamp.FromDateTime(new DateTime(1970, 1, 1, 0, 0, 0, DateTimeKind.Utc))`. */
  const Epoch: Timestamp := 0

  /** A field value as the client library hands it back; `Other` is every kind the controller does not read. */
  datatype Value = Null | Text(s: string) | Integer(n: int) | Time(t: Timestamp) | Other

  type Fields = map<string, Value>

  /** A media item as the controller returns it; `None` is a `null` property. */
  datatype MediaDto = MediaDto(
    id: string,
    title: Option<string>,
    mediaType: Option<string>,
    creator: Option<string>,
    genre: Option<string>,
    year: Option<int32>,
    dateAdded: Timestamp)

  /** Body of `POST api/media/report`. */
  datatype InsertReportItemDto = InsertReportItemDto(
    mediaTitle: Option<string>,
    issue: Option<string>,
    correctVersion: Option<string>)

  datatype ReportItemDto = ReportItemDto(
    id: string,
    mediaTitle: string,
    issue: Option<string>,
    correctVersion: Option<string>,
    dateAdded: Timestamp)

  /** `WhereEqualTo` filters on `Type`, `Genre` and `Year`, and an optional `Limit`. */
  datatype Query = Query(
    typeEq: Option<string>,
    genreEq: Option<string>,
    yearEq: Option<int32>,
    limit: Option<nat>)

  /** The collection itself, before any filter. */
  const AllDocuments := Query(None, None, None, None)

  /** The filter `GetRandom` puts on the collection, before its limit. */
  function OfType(t: string): Query
  {
    Query(Some(t), None, None, None)
  }

  /** How many documents `GetRandom` asks for. */
  const RandomWindow: nat := 100

  /** The unchecked `(int?)` cast of a stored 64-bit integer: the low 32 bits, signed. */
  function ToInt32(n: int): (r: int32)
    ensures (r as int - n) % 0x1_0000_0000 == 0
  {
    ((n + 0x8000_0000) % 0x1_0000_0000 - 0x8000_0000) as int32
  }

  /** A value that already fits in 32 bits comes through the cast unchanged. */
  lemma ToInt32Keeps(y: int32)
    ensures ToInt32(y as int) == y
  {
    var n := y as int;
    assert 0 <= n + 0x8000_0000 < 0x1_0000_0000;
  }

  /** The cast wraps larger values around: 2^31 is read back as -2^31. */
  lemma ToInt32Wraps()
    ensures ToInt32(0x8000_0000) == -0x8000_0000
  {
  }

  /** `fields.TryGetValue(key, out var o) && o is string`. */
  predicate HasText(f: Fields, key: string)
  {
    key in f && f[key].Text?
  }

  /** `fields.TryGetValue(key, out var o) && o is long`. */
  predicate HasInteger(f: Fields, key: string)
  {
    key in f && f[key].Integer?
  }

  /** `fields.TryGetValue(key, out var o) && o is Timestamp`. */
  predicate HasTime(f: Fields, key: string)
  {
    key in f && f[key].Time?
  }

  /** The string under `key`, or `fallback` when there is none. */
  function TextOr(f: Fields, key: string, fallback: Option<string>): Option<string>
  {
    if HasText(f, key) then Some(f[key].s) else fallback
  }

  /**
   * `MapDocumentToMediaItemDto`: a missing document gives only its id and the epoch;
   * otherwise each property is read from its field when the field holds the right
   * kind of value, with `""` for the three text properties, `null` for genre and year
   * and the epoch for the date when it does not.
   */
  function MapDocument(id: string, doc: Option<Fields>): (d: MediaDto)
    ensures d.id == id
    ensures doc.None? ==> d == MediaDto(id, None, None, None, None, None, Epoch)
    ensures doc.Some? ==> d.title.Some? && d.mediaType.Some? && d.creator.Some?
    ensures doc.Some? && HasText(doc.value, "Title") ==> d.title == Some(doc.value["Title"].s)
    ensures doc.Some? && !HasText(doc.value, "Title") ==> d.title == Some("")
    ensures doc.Some? && HasText(doc.value, "Type") ==> d.mediaType == Some(doc.value["Type"].s)
    ensures doc.Some? && !HasText(doc.value, "Type") ==> d.mediaType == Some("")
    ensures doc.Some? && HasText(doc.value, "Creator") ==> d.creator == Some(doc.value["Creator"].s)
    ensures doc.Some? && !HasText(doc.value, "Creator") ==> d.creator == Some("")
    ensures doc.Some? ==> (d.genre.Some? <==> HasText(doc.value, "Genre"))
    ensures doc.Some? && d.genre.Some? ==> d.genre.value == doc.value["Genre"].s
    ensures doc.Some? ==> (d.year.Some? <==> HasInteger(doc.value, "Year"))
    ensures doc.Some? && d.year.Some? ==> d.year.value == ToInt32(doc.value["Year"].n)
    ensures doc.Some? && HasTime(doc.value, "DateAdded") ==> d.dateAdded == doc.value["DateAdded"].t
    ensures doc.Some? && !HasTime(doc.value, "DateAdded") ==> d.dateAdded == Epoch
  {
    match doc
    case None => MediaDto(id, None, None, None, None, None, Epoch)
    case Some(f) =>
      MediaDto(id,
        TextOr(f, "Title", Some("")),
        TextOr(f, "Type", Some("")),
        TextOr(f, "Creator", Some("")),
        TextOr(f, "Genre", None),
        if HasInteger(f, "Year") then Some(ToInt32(f["Year"].n)) else None,
        if HasTime(f, "DateAdded") then f["DateAdded"].t else Epoch)
  }

  /** A C# string as a stored value: `null` stays `null`. */
  function StringValue(s: Option<string>): Value
  {
    if s.Some? then Text(s.value) else Null
  }

  /** The dictionary `Report` writes: title and date always, issue and correction only when non-empty. */
  function ReportFields(dto: InsertReportItemDto, now: Timestamp): (f: Fields)
    requires NonEmpty(dto.mediaTitle)
    ensures f.Keys == {"MediaTitle", "DateAdded"}
      + (if NonEmpty(dto.issue) then {"Issue"} else {})
      + (if NonEmpty(dto.correctVersion) then {"CorrectVersion"} else {})
    ensures f["MediaTitle"] == Text(dto.mediaTitle.value) && f["DateAdded"] == Time(now)
    ensures "Issue" in f ==> f["Issue"] == Text(dto.issue.value)
    ensures "CorrectVersion" in f ==> f["CorrectVersion"] == Text(dto.correctVersion.value)
  {
    var data := map["MediaTitle" := Text(dto.mediaTitle.value), "DateAdded" := Time(now)];
    var data := if NonEmpty(dto.issue) then data["Issue" := Text(dto.issue.value)] else data;
    if NonEmpty(dto.correctVersion) then data["CorrectVersion" := Text(dto.correctVersion.value)] else data
  }

  /** The dictionary `Create` writes: title, type, creator and date always, genre and year when present. */
  function CreateFields(dto: CreateMediaItemDto, now: Timestamp): (f: Fields)
    ensures f.Keys == {"Title", "Type", "Creator", "DateAdded"}
      + (if dto.genre.Some? then {"Genre"} else {})
      + (if dto.year.Some? then {"Year"} else {})
    ensures f["Title"] == StringValue(dto.title) && f["Type"] == StringValue(dto.mediaType)
    ensures f["Creator"] == StringValue(dto.creator) && f["DateAdded"] == Time(now)
    ensures "Genre" in f ==> f["Genre"] == Text(dto.genre.value)
    ensures "Year" in f ==> f["Year"] == Integer(dto.year.value as int)
  {
    var data := map[
      "Title" := StringValue(dto.title),
      "Type" := StringValue(dto.mediaType),
      "Creator" := StringValue(dto.creator),
      "DateAdded" := Time(now)];
    var data := if dto.genre.Some? then data["Genre" := Text(dto.genre.value)] else data;
    if dto.year.Some? then data["Year" := Integer(dto.year.value as int)] else data
  }

  /** The dictionary `Update` writes: exactly the non-null properties. */
  function UpdateFields(dto: UpdateMediaItemDto): (f: Fields)
    ensures "Title" in f <==> dto.title.Some?
    ensures "Type" in f <==> dto.mediaType.Some?
    ensures "Creator" in f <==> dto.creator.Some?
    ensures "Genre" in f <==> dto.genre.Some?
    ensures "Year" in f <==> dto.year.Some?
    ensures f.Keys <= {"Title", "Type", "Creator", "Genre", "Year"}
    ensures "Title" in f ==> f["Title"] == Text(dto.title.value)
    ensures "Type" in f ==> f["Type"] == Text(dto.mediaType.value)
    ensures "Creator" in f ==> f["Creator"] == Text(dto.creator.value)
    ensures "Genre" in f ==> f["Genre"] == Text(dto.genre.value)
    ensures "Year" in f ==> f["Year"] == Integer(dto.year.value as int)
  {
    var updates: Fields := map[];
    var updates := if dto.title.Some? then updates["Title" := Text(dto.title.value)] else updates;
    var updates := if dto.mediaType.Some? then updates["Type" := Text(dto.mediaType.value)] else updates;
    var updates := if dto.creator.Some? then updates["Creator" := Text(dto.creator.value)] else updates;
    var updates := if dto.genre.Some? then updates["Genre" := Text(dto.genre.value)] else updates;
    if dto.year.Some? then updates["Year" := Integer(dto.year.value as int)] else updates
  }

  /** The DTO with each non-null property of `dto` in place of its own. */
  function Overlay(d: MediaDto, dto: UpdateMediaItemDto): MediaDto
  {
    MediaDto(d.id,
      if dto.title.Some? then dto.title else d.title,
      if dto.mediaType.Some? then dto.mediaType else d.mediaType,
      if dto.creator.Some? then dto.creator else d.creator,
      if dto.genre.Some? then dto.genre else d.genre,
      if dto.year.Some? then dto.year else d.year,
      d.dateAdded)
  }

  /** Reading back the document `Create` wrote gives the DTO `Create` returned. */
  lemma CreatedDocumentReadsBack(id: string, dto: CreateMediaItemDto, now: Timestamp)
    requires CreateValid(dto)
    ensures MapDocument(id, Some(CreateFields(dto, now)))
      == MediaDto(id, dto.title, dto.mediaType, dto.creator, dto.genre, dto.year, now)
  {
    if dto.year.Some? {
      ToInt32Keeps(dto.year.value);
    }
  }

  /**
   * Reading a document after `Update` merged its fields gives the earlier reading
   * with the non-null properties of the payload in place: nothing else changes.
   */
  lemma UpdatedDocumentReadsBack(id: string, f: Fields, dto: UpdateMediaItemDto)
    ensures MapDocument(id, Some(f + UpdateFields(dto))) == Overlay(MapDocument(id, Some(f)), dto)
  {
    var u := UpdateFields(dto);
    var g := f + u;
    assert "DateAdded" !in u;
    if dto.year.Some? {
      ToInt32Keeps(dto.year.value);
    }
  }

  /** An update payload with every property null writes no field. */
  lemma EmptyUpdateWritesNothing(dto: UpdateMediaItemDto)
    requires dto == UpdateMediaItemDto(None, None, None, None, None)
    ensures UpdateFields(dto) == map[]
  {
  }

  /** The reading carries the value of each equality filter of the query. */
  predicate CarriesFilters(d: MediaDto, q: Query)
  {
    && (q.typeEq.Some? ==> d.mediaType == q.typeEq)
    && (q.genreEq.Some? ==> d.genre == q.genreEq)
    && (q.yearEq.Some? ==> d.year == q.yearEq)
  }

  /**
   * `WhereEqualTo` on `Type`, `Genre` and `Year`: the document holds each filtered
   * field with exactly that value; a missing field never matches. A query without
   * filters admits every document, and an admitted document reads back with the
   * filtered values.
   */
  predicate Matches(f: Fields, q: Query)
    ensures q.typeEq.None? && q.genreEq.None? && q.yearEq.None? ==> Matches(f, q)
    ensures Matches(f, q) ==> forall id :: CarriesFilters(MapDocument(id, Some(f)), q)
  {
    var admitted :=
      && (q.typeEq.Some? ==> "Type" in f && f["Type"] == Text(q.typeEq.value))
      && (q.genreEq.Some? ==> "Genre" in f && f["Genre"] == Text(q.genreEq.value))
      && (q.yearEq.Some? ==> "Year" in f && f["Year"] == Integer(q.yearEq.value as int));
    if admitted && q.yearEq.Some? then
      ToInt32Keeps(q.yearEq.value);
      admitted
    else
      admitted
  }

  /** The query `GetAll` builds: a filter for each non-empty string and for a year that has a value. */
  function FilterQuery(t: Option<string>, g: Option<string>, y: Option<int32>): Query
  {
    Query(if NonEmpty(t) then t else None, if NonEmpty(g) then g else None, y, None)
  }

  /** Distinct documents give distinct results. */
  predicate DistinctIds(docs: seq<MediaDto>)
  {
    forall i, j :: 0 <= i < j < |docs| ==> docs[i].id != docs[j].id
  }

  /** Appending a result whose id none of the others has keeps the ids distinct. */
  lemma AppendFreshId(docs: seq<MediaDto>, d: MediaDto)
    requires DistinctIds(docs) && forall e :: e in docs ==> e.id != d.id
    ensures DistinctIds(docs + [d])
  {
    forall i, j | 0 <= i < j < |docs| + 1 ensures (docs + [d])[i].id != (docs + [d])[j].id {
      assert (docs + [d])[i] == docs[i];
      if j < |docs| {
        assert (docs + [d])[j] == docs[j];
      }
    }
  }

  /**
   * After the scan has looked at the documents in `seen` of `m`: `chosen` holds those
   * the query admits, and `docs` holds the reading of each of them exactly once.
   */
  ghost predicate ScanInvariant(m: map<string, Fields>, q: Query, seen: set<string>,
    chosen: set<string>, docs: seq<MediaDto>)
  {
    && chosen == (set k | k in seen && k in m && Matches(m[k], q))
    && |docs| == |chosen|
    && (forall d :: d in docs ==> d.id in chosen && d.id in m && d == MapDocument(d.id, Some(m[d.id])))
    && (forall k :: k in chosen ==> exists d :: d in docs && d.id == k)
    && DistinctIds(docs)
  }

  /** Looking at one more document that the query admits, and keeping it, keeps the scan invariant. */
  lemma ScanKeep(m: map<string, Fields>, q: Query, seen: set<string>, chosen: set<string>,
    docs: seq<MediaDto>, k: string)
    requires ScanInvariant(m, q, seen, chosen, docs) && k in m && k !in seen && Matches(m[k], q)
    ensures ScanInvariant(m, q, seen + {k}, chosen + {k}, docs + [MapDocument(k, Some(m[k]))])
  {
    var d := MapDocument(k, Some(m[k]));
    var docs' := docs + [d];
    assert k !in chosen;
    assert forall e :: e in docs ==> e.id != k;
    AppendFreshId(docs, d);
    assert chosen + {k} == (set j | j in seen + {k} && j in m && Matches(m[j], q));
    assert |chosen + {k}| == |chosen| + 1;
    assert forall e :: e in docs' ==> e in docs || e == d;
    forall j | j in chosen + {k} ensures exists e :: e in docs' && e.id == j {
      if j == k {
        assert docs'[|docs|] == d;
      } else {
        var e :| e in docs && e.id == j;
        assert e in docs';
      }
    }
  }

  /** Looking at one more document that the query refuses keeps the scan invariant. */
  lemma ScanSkip(m: map<string, Fields>, q: Query, seen: set<string>, chosen: set<string>,
    docs: seq<MediaDto>, k: string)
    requires ScanInvariant(m, q, seen, chosen, docs) && k in m && k !in seen && !Matches(m[k], q)
    ensures ScanInvariant(m, q, seen + {k}, chosen, docs)
  {
    assert chosen == (set j | j in seen + {k} && j in m && Matches(m[j], q));
  }

  /** Moving one key from the unvisited to the visited part keeps the two a partition. */
  lemma MoveKey(seen: set<string>, rest: set<string>, all: set<string>, k: string)
    requires seen + rest == all && seen !! rest && k in rest
    ensures (seen + {k}) + (rest - {k}) == all && (seen + {k}) !! (rest - {k})
  {
  }

  /** Walks the documents of `m` in an arbitrary order, keeping admitted ones until the limit is reached. */
  method Scan(m: map<string, Fields>, q: Query)
    returns (docs: seq<MediaDto>, ghost seen: set<string>, ghost remaining: set<string>, ghost chosen: set<string>)
    ensures seen + remaining == m.Keys && seen !! remaining
    ensures ScanInvariant(m, q, seen, chosen, docs)
    ensures remaining != {} ==> q.limit.Some? && |docs| == q.limit.value
    ensures q.limit.Some? ==> |docs| <= q.limit.value
  {
    var rest := m.Keys;
    seen := {};
    chosen := {};
    docs := [];
    while rest != {} && (q.limit.None? || |docs| < q.limit.value)
      invariant seen + rest == m.Keys && seen !! rest
      invariant ScanInvariant(m, q, seen, chosen, docs)
      invariant q.limit.Some? ==> |docs| <= q.limit.value
      decreases rest
    {
      var k :| k in rest;
      MoveKey(seen, rest, m.Keys, k);
      if Matches(m[k], q) {
        ScanKeep(m, q, seen, chosen, docs, k);
      } else {
        ScanSkip(m, q, seen, chosen, docs, k);
      }
      rest := rest - {k};
      seen := seen + {k};
      if Matches(m[k], q) {
        docs := docs + [MapDocument(k, Some(m[k]))];
        chosen := chosen + {k};
      }
    }
    remaining := rest;
  }

  class MediaController {
    /** The `mediaItems` collection. */
    var media: map<string, Fields>
    /** The `reports` collection. */
    var reports: map<string, Fields>
    /** How many writes (`AddAsync`, `UpdateAsync`, `DeleteAsync`) the controller has issued. */
    ghost var writes: nat

    constructor (media: map<string, Fields>, reports: map<string, Fields>)
      ensures this.media == media && this.reports == reports && writes == 0
    {
      this.media := media;
      this.reports := reports;
      writes := 0;
    }

    /** Ids of the media documents the query's filters admit. */
    ghost function MatchingIds(q: Query): set<string>
      reads this
    {
      set k | k in media && Matches(media[k], q)
    }

    /** Ids among `seen` of the media documents the query's filters admit. */
    ghost function MatchingIn(seen: set<string>, q: Query): set<string>
      reads this
    {
      set k | k in seen && k in media && Matches(media[k], q)
    }

    /**
     * `query.GetSnapshotAsync()` mapped by `MapDocumentToMediaItemDto`: each admitted
     * document at most once, and all of them, or as many as the limit allows.
     */
    method RunQuery(q: Query) returns (docs: seq<MediaDto>)
      ensures forall d :: d in docs ==>
        d.id in media && Matches(media[d.id], q) && d == MapDocument(d.id, Some(media[d.id]))
      ensures DistinctIds(docs)
      ensures q.limit.None? ==> |docs| == |MatchingIds(q)|
      ensures q.limit.Some? ==> |docs| == if q.limit.value < |MatchingIds(q)| then q.limit.value else |MatchingIds(q)|
      ensures q.limit.None? || |MatchingIds(q)| <= q.limit.value ==>
        forall k :: k in media && Matches(media[k], q) ==> exists d :: d in docs && d.id == k
    {
      ghost var seen, remaining, chosen;
      docs, seen, remaining, chosen := Scan(media, q);
      assert chosen == MatchingIn(seen, q);
      assert chosen <= MatchingIds(q);
      SubsetSize(chosen, MatchingIds(q));
      if remaining == {} {
        assert chosen == MatchingIds(q);
      } else if |MatchingIds(q)| <= q.limit.value {
        SubsetOfSameSize(chosen, MatchingIds(q));
      }
      assert q.limit.None? || |MatchingIds(q)| <= q.limit.value ==>
        forall k :: k in media && Matches(media[k], q) ==> k in chosen;
    }

    /** `GET api/media`: the documents passing every supplied filter, each once. */
    method GetAll(t: Option<string>, g: Option<string>, y: Option<int32>) returns (docs: seq<MediaDto>)
      ensures forall d :: d in docs ==>
        d.id in media && Matches(media[d.id], FilterQuery(t, g, y)) && d == MapDocument(d.id, Some(media[d.id]))
      ensures forall k :: k in media && Matches(media[k], FilterQuery(t, g, y)) ==> exists d :: d in docs && d.id == k
      ensures DistinctIds(docs)
      ensures !NonEmpty(t) && !NonEmpty(g) && y.None? ==> |docs| == |media|
    {
      var query := AllDocuments;
      if NonEmpty(t) {
        query := query.(typeEq := t);
      }
      if NonEmpty(g) {
        query := query.(genreEq := g);
      }
      if y.Some? {
        query := query.(yearEq := y);
      }
      assert query == FilterQuery(t, g, y);
      docs := RunQuery(query);
      if !NonEmpty(t) && !NonEmpty(g) && y.None? {
        assert MatchingIds(query) == media.Keys;
      }
    }

    /**
     * `GET api/media/random`: draws from the first `RandomWindow` documents whose type
     * is exactly `t`; `None` (404) iff there is no such document.
     */
    method GetRandom(t: string) returns (r: Option<MediaDto>, ghost window: seq<MediaDto>)
      ensures |window| <= RandomWindow
      ensures |window| == if |MatchingIds(OfType(t))| < RandomWindow then |MatchingIds(OfType(t))| else RandomWindow
      ensures forall d :: d in window ==>
        d.id in media && Matches(media[d.id], OfType(t)) && d == MapDocument(d.id, Some(media[d.id]))
      ensures DistinctIds(window)
      ensures |MatchingIds(OfType(t))| <= RandomWindow ==>
        forall k :: k in media && Matches(media[k], OfType(t)) ==> exists d :: d in window && d.id == k
      ensures r.None? <==> forall k :: k in media ==> !("Type" in media[k] && media[k]["Type"] == Text(t))
      ensures r.Some? ==> r.value in window
      ensures r.Some? ==> r.value.id in media && Matches(media[r.value.id], OfType(t))
      ensures r.Some? ==> r.value == MapDocument(r.value.id, Some(media[r.value.id]))
    {
      var query := Query(Some(t), None, None, Some(RandomWindow));
      var filtered := RunQuery(query);
      window := filtered;
      assert forall f :: Matches(f, query) == Matches(f, OfType(t));
      assert MatchingIds(query) == MatchingIds(OfType(t));
      if |filtered| == 0 {
        assert MatchingIds(query) == {};
        assert forall k :: k in media && Matches(media[k], query) ==> k in MatchingIds(query);
        return None, window;
      }
      var i :| 0 <= i < |filtered|;
      r := Some(filtered[i]);
      assert filtered[i] in filtered;
    }

    /** `POST api/media/report`: 400 and no write without a title, else one report document. */
    method Report(dto: InsertReportItemDto, now: Timestamp, newId: string) returns (outcome: Reply<ReportItemDto>)
      requires newId !in reports
      modifies this
      ensures !NonEmpty(dto.mediaTitle) ==>
        outcome == Rejected && reports == old(reports) && writes == old(writes)
      ensures NonEmpty(dto.mediaTitle) ==>
        && reports == old(reports)[newId := ReportFields(dto, now)]
        && writes == old(writes) + 1
        && outcome == Created(ReportItemDto(newId, dto.mediaTitle.value, dto.issue, dto.correctVersion, now))
      ensures media == old(media)
    {
      if !NonEmpty(dto.mediaTitle) {
        return Rejected;
      }
      var data := ReportFields(dto, now);
      reports := reports[newId := data];
      writes := writes + 1;
      outcome := Created(ReportItemDto(newId, dto.mediaTitle.value, dto.issue, dto.correctVersion, now));
    }

    /**
     * `POST api/media`: 400 and no write when the payload fails its attributes (the
     * `[ApiController]` check that runs before the action), else one document is added
     * and the reply says what it holds.
     */
    method Create(dto: CreateMediaItemDto, now: Timestamp, newId: string) returns (created: Reply<MediaDto>)
      requires newId !in media
      modifies this
      ensures created.Created? <==> CreateValid(dto)
      ensures created.Rejected? ==> media == old(media) && writes == old(writes)
      ensures created.Created? ==> media == old(media)[newId := CreateFields(dto, now)]
      ensures created.Created? ==> |media| == |old(media)| + 1 && writes == old(writes) + 1
      ensures created.Created? ==>
        created.value == MediaDto(newId, dto.title, dto.mediaType, dto.creator, dto.genre, dto.year, now)
      ensures reports == old(reports)
    {
      if !CreateValid(dto) {
        return Rejected;
      }
      var data := CreateFields(dto, now);
      media := media[newId := data];
      writes := writes + 1;
      created := Created(MediaDto(newId, dto.title, dto.mediaType, dto.creator, dto.genre, dto.year, now));
    }

    /**
     * `PUT api/media/{id}`: 400 when the payload fails its attributes, 404 when the
     * document is missing; otherwise the non-null properties are merged into its fields,
     * and nothing is written when there are none.
     */
    method Update(id: string, dto: UpdateMediaItemDto) returns (status: Status)
      modifies this
      ensures status == BadRequest <==> !UpdateValid(dto)
      ensures status == NotFound <==> UpdateValid(dto) && id !in old(media)
      ensures status != NoContent ==> media == old(media) && writes == old(writes)
      ensures status == NoContent ==> media == old(media)[id := old(media)[id] + UpdateFields(dto)]
      ensures status == NoContent ==> writes == old(writes) + if UpdateFields(dto) == map[] then 0 else 1
      ensures media.Keys == old(media.Keys) && reports == old(reports)
    {
      if !UpdateValid(dto) {
        return BadRequest;
      }
      if id !in media {
        return NotFound;
      }
      var updates := UpdateFields(dto);
      if updates != map[] {
        media := media[id := media[id] + updates];
        writes := writes + 1;
      } else {
        assert media[id] + updates == media[id];
      }
      return NoContent;
    }

    /** `DELETE api/media/{id}`: 404 when the document is missing, else it is removed. */
    method Delete(id: string) returns (status: Status)
      modifies this
      ensures status == NotFound <==> id !in old(media)
      ensures media == old(media) - {id}
      ensures writes == old(writes) + if id in old(media) then 1 else 0
      ensures reports == old(reports)
    {
      if id !in media {
        assert media - {id} == media;
        return NotFound;
      }
      media := media - {id};
      writes := writes + 1;
      return NoContent;
    }
  }
}

/**
 * The list-backed `MediaController` of server/Controllers/TodoController.cs: a static
 * `List<MediaItemDto>` with integer ids issued as one more than the largest stored id,
 * and exact, case-sensitive filters. Records are the `MediaItemDto` of
 * server/DTOs/ToDoDto.cs; `None` is a `null` reference or an empty `int?`.
 */
module ListController {
  import opened Results
  import opened Collections
  import opened Validation

  /** `DateTime.UtcNow` as a tick count. */
  type DateTime = int

  datatype Item = Item(
    id: int,
    title: Option<string>,
    mediaType: Option<string>,
    creator: Option<string>,
    genre: Option<string>,
    year: Option<int32>,
    dateAdded: DateTime)

  /** No two stored items share an id. */
  predicate UniqueIds(s: seq<Item>)
  {
    forall i, j :: 0 <= i < j < |s| ==> s[i].id != s[j].id
  }

  /** `s.Max(m => m.Id)`. */
  function MaxId(s: seq<Item>): (m: int)
    requires s != []
    ensures forall k :: 0 <= k < |s| ==> s[k].id <= m
    ensures exists k :: 0 <= k < |s| && s[k].id == m
  {
    if |s| == 1 then s[0].id
    else
      var m := MaxId(s[..|s| - 1]);
      assert forall k :: 0 <= k < |s| - 1 ==> s[..|s| - 1][k] == s[k];
      if s[|s| - 1].id > m then s[|s| - 1].id else m
  }

  /** The id `Create` issues: 1 for an empty list, else the largest id plus one. */
  function NextIdOf(s: seq<Item>): (id: int)
    ensures s == [] ==> id == 1
    ensures forall k :: 0 <= k < |s| ==> s[k].id < id
    ensures s != [] ==> exists k :: 0 <= k < |s| && s[k].id == id - 1
  {
    if s == [] then 1 else MaxId(s) + 1
  }

  /** The position `FirstOrDefault(m => m.Id == id)` finds, if any. */
  function IndexOfId(s: seq<Item>, id: int): (r: Option<nat>)
    ensures r.None? <==> forall k :: 0 <= k < |s| ==> s[k].id != id
    ensures r.Some? ==> r.value < |s| && s[r.value].id == id
    ensures r.Some? ==> forall k :: 0 <= k < r.value ==> s[k].id != id
  {
    if s == [] then None
    else if s[0].id == id then Some(0)
    else
      match IndexOfId(s[1..], id)
      case None =>
        assert forall k :: 1 <= k < |s| ==> s[1..][k - 1] == s[k];
        None
      case Some(i) => Some(i + 1)
  }

  /** The list after `Remove` of the first item with that id; unchanged when there is none. */
  function RemoveId(s: seq<Item>, id: int): (r: seq<Item>)
    ensures IndexOfId(s, id).None? ==> r == s
    ensures IndexOfId(s, id).Some? ==> |r| == |s| - 1
    ensures forall x :: x in r ==> x in s
    ensures forall x :: x in s && x.id != id ==> x in r
  {
    match IndexOfId(s, id)
    case None => s
    case Some(i) =>
      assert s == s[..i] + [s[i]] + s[i + 1..];
      s[..i] + s[i + 1..]
  }

  /** The item after `Update`: each non-null property of `dto` overwrites its field. */
  function Patched(item: Item, dto: UpdateMediaItemDto): (r: Item)
    ensures r.id == item.id && r.dateAdded == item.dateAdded
    ensures r.title == (if dto.title.Some? then dto.title else item.title)
    ensures r.mediaType == (if dto.mediaType.Some? then dto.mediaType else item.mediaType)
    ensures r.creator == (if dto.creator.Some? then dto.creator else item.creator)
    ensures r.genre == (if dto.genre.Some? then dto.genre else item.genre)
    ensures r.year == (if dto.year.Some? then dto.year else item.year)
  {
    Item(item.id,
      if dto.title.Some? then dto.title else item.title,
      if dto.mediaType.Some? then dto.mediaType else item.mediaType,
      if dto.creator.Some? then dto.creator else item.creator,
      if dto.genre.Some? then dto.genre else item.genre,
      if dto.year.Some? then dto.year else item.year,
      item.dateAdded)
  }

  /** `m.Type == type`, `m.Genre == genre`, `m.Year == year`: exact, case-sensitive equality. */
  function TypeIs(t: string): Item -> bool { (m: Item) => m.mediaType == Some(t) }
  function GenreIs(g: string): Item -> bool { (m: Item) => m.genre == Some(g) }
  function YearIs(y: int32): Item -> bool { (m: Item) => m.year == Some(y) }

  /** An item passes the type and genre filters of `GetAll`: a null or empty string filters nothing. */
  predicate TypeGenreKept(m: Item, t: Option<string>, g: Option<string>)
  {
    (NonEmpty(t) ==> m.mediaType == t) && (NonEmpty(g) ==> m.genre == g)
  }

  /** An item passes every filter `GetAll` applies: an absent year filters nothing either. */
  predicate Kept(m: Item, t: Option<string>, g: Option<string>, y: Option<int32>)
  {
    TypeGenreKept(m, t, g) && (y.Some? ==> m.year == y)
  }

  function TypeGenreBy(t: Option<string>, g: Option<string>): Item -> bool
  {
    m => TypeGenreKept(m, t, g)
  }

  function KeptBy(t: Option<string>, g: Option<string>, y: Option<int32>): Item -> bool
  {
    m => Kept(m, t, g, y)
  }

  /** The conditional type and genre `Where` calls keep what both filters keep, in list order. */
  lemma NarrowingTypeGenre(s: seq<Item>, t: Option<string>, g: Option<string>)
    ensures (var q1 := if NonEmpty(t) then Filter(s, TypeIs(t.value)) else s;
             if NonEmpty(g) then Filter(q1, GenreIs(g.value)) else q1)
            == Filter(s, TypeGenreBy(t, g))
  {
    var tStep := Guarded(NonEmpty(t), TypeIs(if t.Some? then t.value else ""));
    var gStep := Guarded(NonEmpty(g), GenreIs(if g.Some? then g.value else ""));
    FilterIf(s, NonEmpty(t), TypeIs(if t.Some? then t.value else ""));
    FilterIf(Filter(s, tStep), NonEmpty(g), GenreIs(if g.Some? then g.value else ""));
    FilterFilter(s, tStep, gStep, TypeGenreBy(t, g));
  }

  /** The three conditional `Where` calls keep what their conjunction keeps, in list order. */
  lemma NarrowingKeeps(s: seq<Item>, t: Option<string>, g: Option<string>, y: Option<int32>)
    ensures (var q1 := if NonEmpty(t) then Filter(s, TypeIs(t.value)) else s;
             var q2 := if NonEmpty(g) then Filter(q1, GenreIs(g.value)) else q1;
             if y.Some? then Filter(q2, YearIs(y.value)) else q2)
            == Filter(s, KeptBy(t, g, y))
  {
    var yStep := Guarded(y.Some?, YearIs(if y.Some? then y.value else 0));
    NarrowingTypeGenre(s, t, g);
    FilterIf(Filter(s, TypeGenreBy(t, g)), y.Some?, YearIs(if y.Some? then y.value else 0));
    FilterFilter(s, TypeGenreBy(t, g), yStep, KeptBy(t, g, y));
  }

  /** An item issued the next id keeps the ids distinct. */
  lemma {:induction false} AppendNextIdUnique(s: seq<Item>, x: Item)
    requires UniqueIds(s) && x.id == NextIdOf(s)
    ensures UniqueIds(s + [x])
  {
    forall i, j | 0 <= i < j < |s| + 1 ensures (s + [x])[i].id != (s + [x])[j].id {
      if j == |s| {
        assert (s + [x])[i] == s[i];
      } else {
        assert (s + [x])[i] == s[i] && (s + [x])[j] == s[j];
      }
    }
  }

  /** Removing the item at position `i` leaves distinct ids, none of them the removed one. */
  lemma RemoveAtUnique(s: seq<Item>, i: nat)
    requires UniqueIds(s) && i < |s|
    ensures UniqueIds(s[..i] + s[i + 1..])
    ensures forall x :: x in s[..i] + s[i + 1..] ==> x.id != s[i].id
  {
    var r := s[..i] + s[i + 1..];
    assert forall k :: 0 <= k < i ==> r[k] == s[k];
    forall k | i <= k < |r| ensures r[k] == s[k + 1] {
      assert r[k] == s[i + 1..][k - i];
    }
    forall a, b | 0 <= a < b < |r| ensures r[a].id != r[b].id {
      var a' := if a < i then a else a + 1;
      var b' := if b < i then b else b + 1;
      assert r[a] == s[a'] && r[b] == s[b'] && a' < b';
    }
    forall x | x in r ensures x.id != s[i].id {
      var k :| 0 <= k < |r| && r[k] == x;
      var k' := if k < i then k else k + 1;
      assert x == s[k'] && k' != i;
    }
  }

  /** Removing the item with an id leaves distinct ids, none of them that id. */
  lemma {:induction false} RemoveIdUnique(s: seq<Item>, id: int)
    requires UniqueIds(s)
    ensures UniqueIds(RemoveId(s, id))
    ensures forall x :: x in RemoveId(s, id) ==> x.id != id
  {
    match IndexOfId(s, id)
    case None =>
    case Some(i) =>
      RemoveAtUnique(s, i);
  }

  /**
   * Ids are reissued: when the newest item, holding the largest id, is deleted, the
   * list is what it was before that item was created, so the next `Create` issues
   * the deleted id again.
   */
  lemma {:induction false} DeletedNewestIdReissued(s: seq<Item>, x: Item)
    requires x.id == NextIdOf(s)
    ensures RemoveId(s + [x], x.id) == s
    ensures NextIdOf(RemoveId(s + [x], x.id)) == x.id
  {
    var t := s + [x];
    assert forall k :: 0 <= k < |s| ==> t[k] == s[k] && t[k].id < x.id;
    assert t[|s|] == x;
    assert IndexOfId(t, x.id) == Some(|s|);
    assert t[..|s|] == s && t[|s| + 1..] == [];
  }

  class MediaList {
    /** `_mediaItems`. */
    var items: seq<Item>

    ghost predicate Valid()
      reads this
    {
      UniqueIds(items)
    }

    constructor ()
      ensures Valid() && items == []
    {
      items := [];
    }

    /** `GET api/media`: the items passing every supplied filter, in list order. */
    method GetAll(t: Option<string>, g: Option<string>, y: Option<int32>) returns (r: seq<Item>)
      ensures r == Filter(items, KeptBy(t, g, y))
      ensures forall x :: x in r <==> x in items && Kept(x, t, g, y)
      ensures !NonEmpty(t) && !NonEmpty(g) && y.None? ==> r == items
    {
      NarrowingKeeps(items, t, g, y);
      var query := items;
      if NonEmpty(t) {
        query := Filter(query, TypeIs(t.value));
      }
      if NonEmpty(g) {
        query := Filter(query, GenreIs(g.value));
      }
      if y.Some? {
        query := Filter(query, YearIs(y.value));
      }
      r := query;
    }

    /** `GET api/media/random`: `None` (404) iff no item has exactly type `t`, else one that has. */
    method GetRandom(t: string) returns (r: Option<Item>)
      ensures r.None? <==> forall x :: x in items ==> x.mediaType != Some(t)
      ensures r.Some? ==> r.value in items && r.value.mediaType == Some(t)
    {
      var filtered := Filter(items, TypeIs(t));
      assert forall x :: TypeIs(t)(x) == (x.mediaType == Some(t));
      if |filtered| == 0 {
        return None;
      }
      var i :| 0 <= i < |filtered|;
      r := Some(filtered[i]);
    }

    /** `_mediaItems.Count > 0 ? _mediaItems.Max(m => m.Id) + 1 : 1`. */
    method NextId() returns (id: int)
      ensures id == NextIdOf(items)
      ensures forall x :: x in items ==> x.id < id
    {
      if |items| == 0 {
        return 1;
      }
      var max := items[0].id;
      var i := 1;
      while i < |items|
        invariant 1 <= i <= |items|
        invariant max == MaxId(items[..i])
      {
        assert items[..i + 1][..i] == items[..i];
        if items[i].id > max {
          max := items[i].id;
        }
        i := i + 1;
      }
      assert items[..i] == items;
      id := max + 1;
    }

    /** `FirstOrDefault(m => m.Id == id)`, as a position. */
    method FindIndex(id: int) returns (found: Option<nat>)
      ensures found == IndexOfId(items, id)
    {
      var i := 0;
      while i < |items|
        invariant 0 <= i <= |items|
        invariant forall k :: 0 <= k < i ==> items[k].id != id
      {
        if items[i].id == id {
          return Some(i);
        }
        i := i + 1;
      }
      return None;
    }

    /**
     * `POST api/media`: 400 with no change when the payload fails its attributes (the
     * `[ApiController]` check that runs before the action), else one item is appended
     * with the next id and the payload's fields.
     */
    method Create(dto: CreateMediaItemDto, now: DateTime) returns (r: Reply<Item>)
      requires Valid()
      modifies this
      ensures Valid()
      ensures r.Created? <==> CreateValid(dto)
      ensures r.Rejected? ==> items == old(items)
      ensures r.Created? ==> r.value.id == NextIdOf(old(items)) && r.value.dateAdded == now
      ensures r.Created? ==>
        r.value.title == dto.title && r.value.mediaType == dto.mediaType && r.value.creator == dto.creator
      ensures r.Created? ==> r.value.genre == dto.genre && r.value.year == dto.year
      ensures r.Created? ==> items == old(items) + [r.value]
    {
      if !CreateValid(dto) {
        return Rejected;
      }
      var id := NextId();
      var item := Item(id, dto.title, dto.mediaType, dto.creator, dto.genre, dto.year, now);
      AppendNextIdUnique(items, item);
      items := items + [item];
      r := Created(item);
    }

    /**
     * `PUT api/media/{id}`: 400 with no change when the payload fails its attributes, 404
     * with no change when the id is absent, else the non-null properties overwrite.
     */
    method Update(id: int, dto: UpdateMediaItemDto) returns (status: Status)
      requires Valid()
      modifies this
      ensures Valid()
      ensures status == BadRequest <==> !UpdateValid(dto)
      ensures status == NotFound <==> UpdateValid(dto) && IndexOfId(old(items), id).None?
      ensures status != NoContent ==> items == old(items)
      ensures status == NoContent ==>
        var i := IndexOfId(old(items), id).value;
        items == old(items)[i := Patched(old(items)[i], dto)]
    {
      if !UpdateValid(dto) {
        return BadRequest;
      }
      var found := FindIndex(id);
      if found.None? {
        return NotFound;
      }
      var i := found.value;
      var item := items[i];
      if dto.title.Some? { item := item.(title := dto.title); }
      if dto.mediaType.Some? { item := item.(mediaType := dto.mediaType); }
      if dto.creator.Some? { item := item.(creator := dto.creator); }
      if dto.genre.Some? { item := item.(genre := dto.genre); }
      if dto.year.Some? { item := item.(year := dto.year); }
      assert item == Patched(items[i], dto);
      items := items[i := item];
      return NoContent;
    }

    /** `DELETE api/media/{id}`: 404 with no change when absent, else that item is removed. */
    method Delete(id: int) returns (status: Status)
      requires Valid()
      modifies this
      ensures Valid()
      ensures status == NotFound <==> forall x :: x in old(items) ==> x.id != id
      ensures items == RemoveId(old(items), id)
      ensures status == NoContent ==> |items| == |old(items)| - 1
      ensures forall x :: x in items ==> x.id != id
    {
      var found := FindIndex(id);
      RemoveIdUnique(items, id);
      if found.None? {
        return NotFound;
      }
      var i := found.value;
      items := items[..i] + items[i + 1..];
      return NoContent;
    }
  }
}

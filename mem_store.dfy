/**
 * The volatile store of server/storage.ts (`MemStorage`): users and media items
 * kept in JavaScript `Map`s keyed by a generated UUID. Each map is paired with
 * the sequence of its keys in insertion order, which is the order in which
 * `Array.from(map.values())` lists the values.
 */
module MemStore {
  import opened Results
  import opened Text
  import opened Collections

  /** A `Date`, as milliseconds since the Unix epoch. */
  type Instant = int

  datatype User = User(id: string, username: string, password: string)

  /** The body of `createUser`: a user without its id. */
  datatype InsertUser = InsertUser(username: string, password: string)

  /** A stored media item; `None` stands for `null` in the nullable columns. */
  datatype MediaItem = MediaItem(
    id: string,
    title: string,
    mediaType: string,
    creator: Option<string>,
    genre: Option<string>,
    year: Option<int>,
    dateAdded: Instant)

  /** The validated body of a create request; `None` is a missing or `null` field. */
  datatype InsertMediaItem = InsertMediaItem(
    title: string,
    mediaType: string,
    creator: Option<string>,
    genre: Option<string>,
    year: Option<int>)

  /**
   * A `Partial<InsertMediaItem>`: the outer `None` is a key the request left out,
   * `Some(None)` an explicit `null` for a nullable column.
   */
  datatype MediaPatch = MediaPatch(
    title: Option<string>,
    mediaType: Option<string>,
    creator: Option<Option<string>>,
    genre: Option<Option<string>>,
    year: Option<Option<int>>)

  /** `value || null` for an optional string: `""` is falsy. */
  function StringOrNull(s: Option<string>): Option<string>
  {
    if s.Some? && s.value != "" then s else None
  }

  /** `value || null` for an optional number: `0` is falsy. */
  function YearOrNull(y: Option<int>): Option<int>
  {
    if y.Some? && y.value != 0 then y else None
  }

  /** The record `createMediaItem` stores under `id` at time `now`. */
  function NewMediaItem(id: string, input: InsertMediaItem, now: Instant): (r: MediaItem)
    ensures r.id == id && r.dateAdded == now
    ensures r.title == input.title && r.mediaType == input.mediaType
    ensures r.creator.None? <==> input.creator in {None, Some("")}
    ensures r.genre.None? <==> input.genre in {None, Some("")}
    ensures r.year.None? <==> input.year in {None, Some(0)}
    ensures r.creator.Some? ==> r.creator == input.creator
    ensures r.genre.Some? ==> r.genre == input.genre
    ensures r.year.Some? ==> r.year == input.year
  {
    MediaItem(id, input.title, input.mediaType,
      StringOrNull(input.creator), StringOrNull(input.genre), YearOrNull(input.year), now)
  }

  /** The patch that supplies no field. */
  const EmptyPatch := MediaPatch(None, None, None, None, None)

  /** `{ ...existing, ...patch }`: every supplied field overwrites, all others are kept. */
  function Merge(existing: MediaItem, patch: MediaPatch): (r: MediaItem)
    ensures r.id == existing.id && r.dateAdded == existing.dateAdded
    ensures r.title == (if patch.title.Some? then patch.title.value else existing.title)
    ensures r.mediaType == (if patch.mediaType.Some? then patch.mediaType.value else existing.mediaType)
    ensures r.creator == (if patch.creator.Some? then patch.creator.value else existing.creator)
    ensures r.genre == (if patch.genre.Some? then patch.genre.value else existing.genre)
    ensures r.year == (if patch.year.Some? then patch.year.value else existing.year)
  {
    var r := existing;
    var r := if patch.title.Some? then r.(title := patch.title.value) else r;
    var r := if patch.mediaType.Some? then r.(mediaType := patch.mediaType.value) else r;
    var r := if patch.creator.Some? then r.(creator := patch.creator.value) else r;
    var r := if patch.genre.Some? then r.(genre := patch.genre.value) else r;
    var r := if patch.year.Some? then r.(year := patch.year.value) else r;
    r
  }

  /** A patch that supplies nothing leaves the item as it was. */
  lemma MergeEmpty(existing: MediaItem)
    ensures Merge(existing, EmptyPatch) == existing
  {
  }

  /** Applying the same patch twice is applying it once. */
  lemma MergeIdempotent(existing: MediaItem, patch: MediaPatch)
    ensures Merge(Merge(existing, patch), patch) == Merge(existing, patch)
  {
  }

  /** `item.type.toLowerCase() === type.toLowerCase()`. */
  predicate TypeMatches(item: MediaItem, t: string)
  {
    EqualsIgnoreCase(item.mediaType, t)
  }

  /** `item.genre?.toLowerCase().includes(genre.toLowerCase())`: a `null` genre never matches. */
  predicate GenreMatches(item: MediaItem, g: string)
  {
    item.genre.Some? && Includes(Lower(item.genre.value), Lower(g))
  }

  /** An item passes every filter `getRandomMediaItem` applies for these arguments. */
  predicate Selected(item: MediaItem, t: Option<string>, g: Option<string>)
  {
    (NonEmpty(t) ==> TypeMatches(item, t.value)) && (NonEmpty(g) ==> GenreMatches(item, g.value))
  }

  /** The callbacks handed to `Array.filter`. */
  function TypeIs(t: string): MediaItem -> bool { item => TypeMatches(item, t) }
  function GenreIs(g: string): MediaItem -> bool { item => GenreMatches(item, g) }
  function SelectedBy(t: Option<string>, g: Option<string>): MediaItem -> bool { item => Selected(item, t, g) }

  /** Narrowing by type and then by genre, each only when given, is one conjunctive filter. */
  lemma NarrowingSelects(all: seq<MediaItem>, t: Option<string>, g: Option<string>)
    ensures (var byType := if NonEmpty(t) then Filter(all, TypeIs(t.value)) else all;
             if NonEmpty(g) then Filter(byType, GenreIs(g.value)) else byType)
            == Filter(all, SelectedBy(t, g))
  {
    var typeStep := Guarded(NonEmpty(t), TypeIs(if t.Some? then t.value else ""));
    var genreStep := Guarded(NonEmpty(g), GenreIs(if g.Some? then g.value else ""));
    FilterIf(all, NonEmpty(t), TypeIs(if t.Some? then t.value else ""));
    FilterIf(Filter(all, typeStep), NonEmpty(g), GenreIs(if g.Some? then g.value else ""));
    FilterFilter(all, typeStep, genreStep, SelectedBy(t, g));
  }

  /** `Math.floor(Math.random() * n)` for a draw `rand` of `Math.random()`. */
  function RandomIndex(rand: real, n: nat): (i: nat)
    requires 0.0 <= rand < 1.0 && n > 0
    ensures i < n
  {
    assert 0.0 <= rand * n as real < n as real;
    (rand * n as real).Floor
  }

  /** Every index below `n` is drawn for some value of `Math.random()`. */
  lemma RandomIndexReaches(n: nat, k: nat)
    requires k < n
    ensures exists rand: real :: 0.0 <= rand < 1.0 && RandomIndex(rand, n) == k
  {
    var rand := k as real / n as real;
    assert rand * n as real == k as real;
    assert RandomIndex(rand, n) == k;
  }

  /** The first user in `order` whose name is `name` (`Array.prototype.find`). */
  function FindByUsername(order: seq<string>, users: map<string, User>, name: string): (r: Option<User>)
    requires forall k :: k in order ==> k in users
    ensures r.None? <==> forall i :: 0 <= i < |order| ==> users[order[i]].username != name
    ensures r.Some? ==> r.value.username == name && exists i :: (0 <= i < |order| && users[order[i]] == r.value
      && forall j :: 0 <= j < i ==> users[order[j]].username != name)
  {
    if order == [] then None
    else if users[order[0]].username == name then Some(users[order[0]])
    else
      var r := FindByUsername(order[1..], users, name);
      assert forall i :: 0 < i < |order| ==> order[1..][i - 1] == order[i];
      r
  }

  class MemStorage {
    var users: map<string, User>
    var userOrder: seq<string>
    var mediaItems: map<string, MediaItem>
    var itemOrder: seq<string>

    /** Each order lists its map's keys once, and every record sits under its own id. */
    ghost predicate Valid()
      reads this
    {
      && Tracks(userOrder, users)
      && Tracks(itemOrder, mediaItems)
      && (forall k :: k in users ==> users[k].id == k)
      && (forall k :: k in mediaItems ==> mediaItems[k].id == k)
    }

    constructor ()
      ensures Valid()
      ensures users == map[] && mediaItems == map[]
    {
      users, userOrder := map[], [];
      mediaItems, itemOrder := map[], [];
    }

    /** `getUser`: the user stored under `id`, if any. */
    function GetUser(id: string): (r: Option<User>)
      reads this
      ensures r.Some? <==> id in users
      ensures r.Some? ==> r.value == users[id]
    {
      if id in users then Some(users[id]) else None
    }

    /** `getUserByUsername`: a stored user with that name, the earliest created one, if any. */
    function GetUserByUsername(name: string): (r: Option<User>)
      reads this
      requires Valid()
      ensures r.Some? <==> exists k :: k in users && users[k].username == name
      ensures r.Some? ==> r.value in users.Values && r.value.username == name
    {
      var r := FindByUsername(userOrder, users, name);
      assert r.Some? ==> r.value in users.Values;
      assert (exists k :: k in users && users[k].username == name) ==> r.Some? by {
        if exists k :: k in users && users[k].username == name {
          var k :| k in users && users[k].username == name;
          var i :| 0 <= i < |userOrder| && userOrder[i] == k;
        }
      }
      r
    }

    /** `createUser`: stores the user under the freshly generated `id` and returns it. */
    method CreateUser(input: InsertUser, id: string) returns (user: User)
      requires Valid()
      requires id !in users
      modifies this
      ensures Valid()
      ensures user == User(id, input.username, input.password)
      ensures users == old(users)[id := user] && userOrder == old(userOrder) + [id]
      ensures mediaItems == old(mediaItems) && itemOrder == old(itemOrder)
    {
      user := User(id, input.username, input.password);
      TracksAppend(userOrder, users, id, user);
      users := users[id := user];
      userOrder := userOrder + [id];
    }

    /** `getAllMediaItems`: every stored item once, in insertion order. */
    function GetAllMediaItems(): (r: seq<MediaItem>)
      reads this
      requires Valid()
      ensures |r| == |itemOrder| == |mediaItems|
      ensures forall x :: x in r <==> x in mediaItems.Values
      ensures forall i :: 0 <= i < |r| ==> r[i] == mediaItems[itemOrder[i]]
    {
      TracksSize(itemOrder, mediaItems);
      var r := ValuesIn(itemOrder, mediaItems);
      assert forall x :: x in mediaItems.Values ==> x in r by {
        forall x | x in mediaItems.Values ensures x in r {
          var k :| k in mediaItems && mediaItems[k] == x;
          var i :| 0 <= i < |itemOrder| && itemOrder[i] == k;
          assert r[i] == x;
        }
      }
      r
    }

    /** `getMediaItemsByType`: the stored items whose type equals `t` ignoring case. */
    function GetMediaItemsByType(t: string): (r: seq<MediaItem>)
      reads this
      requires Valid()
      ensures forall x :: x in r <==> x in mediaItems.Values && Lower(x.mediaType) == Lower(t)
    {
      Filter(GetAllMediaItems(), TypeIs(t))
    }

    /** `getMediaItemsByGenre`: the stored items with a genre containing `g` ignoring case. */
    function GetMediaItemsByGenre(g: string): (r: seq<MediaItem>)
      reads this
      requires Valid()
      ensures forall x :: x in r <==> (x in mediaItems.Values && x.genre.Some?
        && Includes(Lower(x.genre.value), Lower(g)))
    {
      Filter(GetAllMediaItems(), GenreIs(g))
    }

    /** The items `getRandomMediaItem` draws from: all filters applied at once. */
    function Candidates(t: Option<string>, g: Option<string>): (c: seq<MediaItem>)
      reads this
      requires Valid()
      ensures forall x :: x in c <==> x in mediaItems.Values && Selected(x, t, g)
    {
      Filter(GetAllMediaItems(), SelectedBy(t, g))
    }

    /**
     * `getRandomMediaItem`: narrows the items by type and then by genre, each only when
     * its argument is given, and draws one with `rand`, the value of `Math.random()`.
     */
    method GetRandomMediaItem(t: Option<string>, g: Option<string>, rand: real) returns (r: Option<MediaItem>)
      requires Valid()
      requires 0.0 <= rand < 1.0
      ensures r.None? <==> forall x :: x in mediaItems.Values ==> !Selected(x, t, g)
      ensures r.Some? ==> r.value in mediaItems.Values && Selected(r.value, t, g)
      ensures forall x :: (x in mediaItems.Values && Selected(x, t, g)
        && forall y :: y in mediaItems.Values && Selected(y, t, g) ==> y == x) ==> r == Some(x)
      ensures r.Some? ==> r.value == Candidates(t, g)[RandomIndex(rand, |Candidates(t, g)|)]
    {
      var items := GetAllMediaItems();
      NarrowingSelects(items, t, g);
      if NonEmpty(t) {
        items := Filter(items, TypeIs(t.value));
      }
      if NonEmpty(g) {
        items := Filter(items, GenreIs(g.value));
      }
      if |items| == 0 {
        return None;
      }
      var i := RandomIndex(rand, |items|);
      r := Some(items[i]);
      assert r.value in items;
    }

    /** `createMediaItem`: stores the normalised record under the fresh `id` and returns it. */
    method CreateMediaItem(input: InsertMediaItem, id: string, now: Instant) returns (item: MediaItem)
      requires Valid()
      requires id !in mediaItems
      modifies this
      ensures Valid()
      ensures item == NewMediaItem(id, input, now)
      ensures mediaItems == old(mediaItems)[id := item] && itemOrder == old(itemOrder) + [id]
      ensures |mediaItems| == old(|mediaItems|) + 1
      ensures users == old(users) && userOrder == old(userOrder)
    {
      item := NewMediaItem(id, input, now);
      TracksAppend(itemOrder, mediaItems, id, item);
      mediaItems := mediaItems[id := item];
      itemOrder := itemOrder + [id];
    }

    /**
     * `updateMediaItem`: `None` and no change when `id` is absent; otherwise the merged
     * record replaces the old one under the same key, which keeps its place in the order.
     */
    method UpdateMediaItem(id: string, patch: MediaPatch) returns (r: Option<MediaItem>)
      requires Valid()
      modifies this
      ensures Valid()
      ensures id !in old(mediaItems) ==> r.None? && mediaItems == old(mediaItems)
      ensures id in old(mediaItems) ==>
        r == Some(Merge(old(mediaItems)[id], patch)) && mediaItems == old(mediaItems)[id := r.value]
      ensures mediaItems.Keys == old(mediaItems.Keys)
      ensures itemOrder == old(itemOrder) && users == old(users) && userOrder == old(userOrder)
    {
      if id !in mediaItems {
        return None;
      }
      var updated := Merge(mediaItems[id], patch);
      mediaItems := mediaItems[id := updated];
      r := Some(updated);
    }

    /** `deleteMediaItem`: whether `id` was present; afterwards it is not. */
    method DeleteMediaItem(id: string) returns (deleted: bool)
      requires Valid()
      modifies this
      ensures Valid()
      ensures deleted == (id in old(mediaItems))
      ensures id !in mediaItems
      ensures mediaItems == old(mediaItems) - {id} && itemOrder == Without(old(itemOrder), id)
      ensures users == old(users) && userOrder == old(userOrder)
    {
      deleted := id in mediaItems;
      TracksWithout(itemOrder, mediaItems, id);
      mediaItems := mediaItems - {id};
      itemOrder := Without(itemOrder, id);
    }
  }
}

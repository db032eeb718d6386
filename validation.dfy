/**
 * The validation attributes of server/DTOs/ToDoDto.cs, read with the meaning the
 * ASP.NET data-annotation attributes give them, as predicates over request payloads.
 * `None` is a `null` (or missing) property.
 */
module Validation {
  import opened Results

  /** The values `^(TV|Movie|Book|Music)$` matches in full, case-sensitively. */
  const MediaTypes: set<string> := {"TV", "Movie", "Book", "Music"}

  /** Body of `POST api/media`. */
  datatype CreateMediaItemDto = CreateMediaItemDto(
    title: Option<string>,
    mediaType: Option<string>,
    creator: Option<string>,
    genre: Option<string>,
    year: Option<int32>)

  /** Body of `PUT api/media/{id}`. */
  datatype UpdateMediaItemDto = UpdateMediaItemDto(
    title: Option<string>,
    mediaType: Option<string>,
    creator: Option<string>,
    genre: Option<string>,
    year: Option<int32>)

  /** White space as `string.Trim()` sees it, for the Latin-1 range. */
  predicate IsWhiteSpace(c: char)
  {
    c == ' ' || '\t' <= c <= '\r' || c == '\U{0085}' || c == '\U{00A0}'
  }

  /** `s` has a character that is not white space. */
  predicate NotBlank(s: string)
  {
    exists i :: 0 <= i < |s| && !IsWhiteSpace(s[i])
  }

  /** A character outside the Basic Multilingual Plane: UTF-16 stores it as a surrogate pair. */
  predicate Astral(c: char)
  {
    c as int >= 0x1_0000
  }

  /** `string.Length` of .NET: the number of UTF-16 code units. */
  function Utf16Length(s: string): (n: nat)
    ensures |s| <= n <= 2 * |s|
    ensures (forall i :: 0 <= i < |s| ==> !Astral(s[i])) ==> n == |s|
    ensures (forall i :: 0 <= i < |s| ==> Astral(s[i])) ==> n == 2 * |s|
  {
    if s == [] then 0
    else
      assert forall i :: 1 <= i < |s| ==> s[1..][i - 1] == s[i];
      (if Astral(s[0]) then 2 else 1) + Utf16Length(s[1..])
  }

  /** `[Required]` on a string: not null, not empty and not white space only. */
  predicate Required(s: Option<string>)
    ensures Required(s) ==> s.Some? && s.value != ""
    ensures s.Some? && s.value != "" && !IsWhiteSpace(s.value[0]) ==> Required(s)
  {
    s.Some? && NotBlank(s.value)
  }

  /** `[StringLength(max, MinimumLength = min)]`: null passes, otherwise `Length` is in `min..max`. */
  predicate StringLength(s: Option<string>, max: nat, min: nat)
    ensures s.None? ==> StringLength(s, max, min)
    ensures StringLength(s, max, min) && s.Some? ==> |s.value| <= max
    ensures s.Some? && (forall i :: 0 <= i < |s.value| ==> !Astral(s.value[i])) ==>
      (StringLength(s, max, min) <==> min <= |s.value| <= max)
  {
    s.None? || min <= Utf16Length(s.value) <= max
  }

  /** `[RegularExpression("^(TV|Movie|Book|Music)$")]`: null and `""` pass, any other string must match whole. */
  predicate TypePattern(s: Option<string>)
    ensures s.None? || s == Some("") ==> TypePattern(s)
    ensures TypePattern(s) && s.Some? && s.value != "" ==> s.value in MediaTypes
  {
    s.None? || s.value == "" || s.value in MediaTypes
  }

  /** Every attribute on `CreateMediaItemDto` accepts the payload. */
  predicate CreateValid(d: CreateMediaItemDto)
    ensures CreateValid(d) ==> d.title.Some? && d.mediaType.Some? && d.creator.Some?
    ensures CreateValid(d) ==> d.mediaType.value in MediaTypes
    ensures CreateValid(d) ==> 1 <= |d.title.value| <= 200 && |d.creator.value| <= 200
  {
    && Required(d.title) && StringLength(d.title, 200, 1)
    && Required(d.mediaType) && TypePattern(d.mediaType)
    && Required(d.creator) && StringLength(d.creator, 200, 0)
    && StringLength(d.genre, 100, 0)
  }

  /** Every attribute on `UpdateMediaItemDto` accepts the payload. */
  predicate UpdateValid(d: UpdateMediaItemDto)
    ensures UpdateValid(d) && d.mediaType.Some? ==> d.mediaType.value in MediaTypes + {""}
    ensures UpdateValid(d) && d.title.Some? ==> d.title.value != ""
    ensures d.title.None? && d.mediaType.None? && d.creator.None? && d.genre.None? ==> UpdateValid(d)
  {
    && StringLength(d.title, 200, 1)
    && TypePattern(d.mediaType)
    && StringLength(d.creator, 200, 0)
    && StringLength(d.genre, 100, 0)
  }

  /** The update payload carrying the same five properties. */
  function AsUpdate(d: CreateMediaItemDto): UpdateMediaItemDto
  {
    UpdateMediaItemDto(d.title, d.mediaType, d.creator, d.genre, d.year)
  }

  /** Each of the four type names has a non-blank character. */
  lemma MediaTypesNotBlank(t: string)
    requires t in MediaTypes
    ensures NotBlank(t)
  {
    assert !IsWhiteSpace(t[0]);
  }

  /**
   * What an accepted create payload carries: a title of 1 to 200 characters, one of
   * the four types exactly, a creator of at most 200 characters that is not blank,
   * and a genre of at most 100 characters when there is one; any year or none.
   * Conversely, every such payload with a non-blank title is accepted.
   */
  lemma CreateValidMeans(d: CreateMediaItemDto)
    ensures CreateValid(d) <==>
      && d.title.Some? && 1 <= Utf16Length(d.title.value) <= 200 && NotBlank(d.title.value)
      && d.mediaType.Some? && d.mediaType.value in MediaTypes
      && d.creator.Some? && Utf16Length(d.creator.value) <= 200 && NotBlank(d.creator.value)
      && (d.genre.Some? ==> Utf16Length(d.genre.value) <= 100)
  {
    if d.mediaType.Some? && d.mediaType.value in MediaTypes {
      MediaTypesNotBlank(d.mediaType.value);
    }
  }

  /** What an accepted update payload carries: every present property within the create bounds. */
  lemma UpdateValidMeans(d: UpdateMediaItemDto)
    ensures UpdateValid(d) <==>
      && (d.title.Some? ==> 1 <= Utf16Length(d.title.value) <= 200)
      && (d.mediaType.Some? ==> d.mediaType.value in MediaTypes + {""})
      && (d.creator.Some? ==> Utf16Length(d.creator.value) <= 200)
      && (d.genre.Some? ==> Utf16Length(d.genre.value) <= 100)
  {
  }

  /** An update payload with every property null is accepted. */
  lemma EmptyUpdateValid()
    ensures UpdateValid(UpdateMediaItemDto(None, None, None, None, None))
  {
  }

  /** Every accepted create payload is also an accepted update payload. */
  lemma CreateValidIsUpdateValid(d: CreateMediaItemDto)
    requires CreateValid(d)
    ensures UpdateValid(AsUpdate(d))
  {
  }

  /** The type check is case-sensitive and closed: `MOVIE`, `movie` and `Podcast` are refused. */
  lemma TypeOutsideEnumerationRefused(d: CreateMediaItemDto)
    requires d.mediaType in {Some("MOVIE"), Some("movie"), Some("Podcast")}
    ensures !CreateValid(d)
  {
    assert "MOVIE"[1] != "Movie"[1];
    assert "movie"[0] != "Movie"[0];
    assert |"Podcast"| > 5;
  }

  /** A title of white space only fails `[Required]` although its length is within bounds. */
  lemma BlankTitleRefused(d: CreateMediaItemDto)
    requires d.title == Some("  ")
    ensures !CreateValid(d)
  {
    assert !NotBlank("  ") by {
      forall i | 0 <= i < 2 ensures IsWhiteSpace("  "[i]) { }
    }
  }

  /**
   * Lengths are counted in UTF-16 code units: a title of 101 characters, each outside
   * the Basic Multilingual Plane, is 202 units long and refused.
   */
  lemma AstralTitleRefused(d: CreateMediaItemDto)
    requires d.title.Some? && |d.title.value| == 101
    requires forall i :: 0 <= i < 101 ==> Astral(d.title.value[i])
    ensures !CreateValid(d)
  {
    assert Utf16Length(d.title.value) == 202;
  }

  /** The pattern attribute lets an empty type through on update, so `Type` may become `""`. */
  lemma EmptyTypeAcceptedOnUpdate(d: UpdateMediaItemDto)
    requires d == UpdateMediaItemDto(None, Some(""), None, None, None)
    ensures UpdateValid(d) && d.mediaType.value !in MediaTypes
  {
  }
}

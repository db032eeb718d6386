/**
 * The three stores answer the same filter differently. The in-memory TypeScript
 * store compares types ignoring case and genres as case-insensitive substrings; the
 * two C# controllers compare both exactly, and the payload validator admits only the
 * four spellings `TV`, `Movie`, `Book` and `Music`. The client upper-cases the type it
 * asks for, so the same request finds an item in one store and nothing in the others.
 */
module Variants {
  import opened Results
  import opened Text
  import MemStore
  import ListController
  import DocumentController
  import Validation

  /**
   * An item of type `Movie` is found by the upper-cased filter `MOVIE` in the
   * TypeScript store, but not by either C# controller, and `MOVIE` is not a type a
   * create payload may carry.
   */
  lemma UpperCaseTypeFoundOnlyInMemStore(item: MemStore.MediaItem, listed: ListController.Item,
    doc: DocumentController.Fields, dto: Validation.CreateMediaItemDto)
    requires item.mediaType == "Movie"
    requires listed.mediaType == Some("Movie")
    requires "Type" in doc && doc["Type"] == DocumentController.Text("Movie")
    requires dto.mediaType == Some("MOVIE")
    ensures MemStore.Selected(item, Some("MOVIE"), None)
    ensures !ListController.Kept(listed, Some("MOVIE"), None, None)
    ensures !DocumentController.Matches(doc, DocumentController.FilterQuery(Some("MOVIE"), None, None))
    ensures !Validation.CreateValid(dto)
  {
    EqualsIgnoreCasePointwise("Movie", "MOVIE");
    assert "MOVIE"[1] != "Movie"[1];
    Validation.TypeOutsideEnumerationRefused(dto);
  }

  /**
   * An item of genre `sci-fi` is found by the genre filter `fi` in the TypeScript
   * store, but by neither C# controller, which compare genres exactly.
   */
  lemma GenreSubstringFoundOnlyInMemStore(item: MemStore.MediaItem, listed: ListController.Item,
    doc: DocumentController.Fields)
    requires item.genre == Some("sci-fi")
    requires listed.genre == Some("sci-fi")
    requires "Genre" in doc && doc["Genre"] == DocumentController.Text("sci-fi")
    ensures MemStore.Selected(item, None, Some("fi"))
    ensures !ListController.Kept(listed, None, Some("fi"), None)
    ensures !DocumentController.Matches(doc, DocumentController.FilterQuery(None, Some("fi"), None))
  {
    LowerOfLowerCase("sci-fi");
    LowerOfLowerCase("fi");
    assert OccursAt("sci-fi", "fi", 4) by {
      assert "sci-fi"[4..6] == "fi";
    }
    assert |"fi"| != |"sci-fi"|;
  }
}

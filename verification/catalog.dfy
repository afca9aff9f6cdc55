/** The catalogue page's filter (project/src/pages/Books.tsx:10-29): a genre
    filter, skipped for "All", followed by a case-insensitive search over
    title, author and genre, skipped for an empty query; and how the
    genre and search actions of the reducer change what it lists. */
module Catalog {
  import opened Types
  import opened Seqs
  import opened Text
  import AppContext

  /** The search test the catalogue and the seller inventory share: the
      lower-cased query occurs in the lower-cased title, author or genre. */
  predicate MatchesQuery(b: Book, query: string) {
    ContainsIgnoringCase(b.title, query) || ContainsIgnoringCase(b.author, query) ||
    ContainsIgnoringCase(b.genre, query)
  }

  /** The genre test, with "All" accepting every book. */
  predicate InGenre(b: Book, genre: string) {
    genre == "All" || b.genre == genre
  }

  /** Every book matches the empty query. */
  lemma EmptyQueryMatchesAll(b: Book)
    ensures MatchesQuery(b, "")
  {
    ContainsEmpty(ToLower(b.title));
  }

  lemma AllMatchEmptyQuery(books: seq<Book>)
    ensures forall i :: 0 <= i < |books| ==> MatchesQuery(books[i], "")
  {
    forall i | 0 <= i < |books| ensures MatchesQuery(books[i], "") {
      EmptyQueryMatchesAll(books[i]);
    }
  }

  /** The genre step: skipped for "All". */
  function ByGenre(books: seq<Book>, genre: string): (r: seq<Book>)
    ensures IsSubseq(r, books)
    ensures forall i :: 0 <= i < |r| ==> InGenre(r[i], genre)
    ensures forall i :: 0 <= i < |books| && InGenre(books[i], genre) ==> books[i] in r
  {
    if genre != "All" then Filter(books, (b: Book) => b.genre == genre)
    else SubseqOfSelf(books); books
  }

  /** The search step: skipped for an empty query. */
  function ByQuery(books: seq<Book>, query: string): (r: seq<Book>)
    ensures IsSubseq(r, books)
    ensures forall i :: 0 <= i < |r| ==> MatchesQuery(r[i], query)
    ensures forall i :: 0 <= i < |books| && MatchesQuery(books[i], query) ==> books[i] in r
  {
    if query != "" then Filter(books, (b: Book) => MatchesQuery(b, query))
    else SubseqOfSelf(books); AllMatchEmptyQuery(books); books
  }

  /** `filteredBooks`. */
  function FilteredBooks(books: seq<Book>, genre: string, query: string): (r: seq<Book>)
    ensures IsSubseq(r, books)
    ensures forall i :: 0 <= i < |r| ==> InGenre(r[i], genre) && MatchesQuery(r[i], query)
    ensures forall i :: 0 <= i < |books| && InGenre(books[i], genre) && MatchesQuery(books[i], query)
              ==> books[i] in r
  {
    var byGenre := ByGenre(books, genre);
    SubseqTrans(ByQuery(byGenre, query), byGenre, books);
    ByQuery(byGenre, query)
  }

  /** The two filters in sequence are one filter by the conjunction of the
      two tests: the catalogue shows exactly the books, in catalogue order,
      that are in the genre and match the query. */
  lemma FilteredBooksConjunctive(books: seq<Book>, genre: string, query: string)
    ensures FilteredBooks(books, genre, query) ==
            Filter(books, (b: Book) => InGenre(b, genre) && MatchesQuery(b, query))
  {
    var both := (b: Book) => InGenre(b, genre) && MatchesQuery(b, query);
    var g := (b: Book) => b.genre == genre;
    var m := (b: Book) => MatchesQuery(b, query);
    forall b: Book ensures MatchesQuery(b, "") {
      EmptyQueryMatchesAll(b);
    }
    if genre != "All" && query != "" {
      FilterFilter(books, g, m, both);
    } else if genre != "All" {
      FilterKeepsAll(Filter(books, g), m);
      FilterFilter(books, g, m, both);
    } else if query != "" {
      FilterKeepsAll(books, (b: Book) => true);
      FilterFilter(books, (b: Book) => true, m, both);
    } else {
      FilterKeepsAll(books, both);
    }
  }

  /** With genre "All" and an empty query the whole catalogue is shown. */
  lemma NoFilterShowsAll(books: seq<Book>)
    ensures FilteredBooks(books, "All", "") == books
  {
  }

  /** What the books page lists for a state. */
  function PageBooks(s: AppContext.AppState): seq<Book> {
    FilteredBooks(s.books, s.selectedGenre, s.searchQuery)
  }

  /** SET_SELECTED_GENRE changes only the genre, and the page then lists
      exactly the catalogue books in that genre matching the current
      search, in catalogue order. */
  lemma GenreChangeRefilters(env: AppContext.Env, s: AppContext.AppState, genre: string)
    ensures var r := AppContext.Reduce(env, s, AppContext.SetSelectedGenre(genre));
      r == s.(selectedGenre := genre) &&
      PageBooks(r) == Filter(s.books, (b: Book) => InGenre(b, genre) && MatchesQuery(b, s.searchQuery))
  {
    var r := AppContext.Reduce(env, s, AppContext.SetSelectedGenre(genre));
    assert r == s.(selectedGenre := genre);
    assert PageBooks(r) == FilteredBooks(s.books, genre, s.searchQuery);
    FilteredBooksConjunctive(s.books, genre, s.searchQuery);
  }

  /** Choosing "All" and clearing the search lists the whole catalogue
      again, whatever was chosen before. */
  lemma ResetFiltersShowsAll(env: AppContext.Env, s: AppContext.AppState)
    ensures var r := AppContext.Run(env, s, [AppContext.SetSelectedGenre("All"), AppContext.SetSearchQuery("")]);
      r == Some(s.(selectedGenre := "All", searchQuery := "")) && PageBooks(r.value) == s.books
  {
    var actions := [AppContext.SetSelectedGenre("All"), AppContext.SetSearchQuery("")];
    var t := s.(selectedGenre := "All");
    assert actions[1..][1..] == [];
    assert AppContext.Run(env, t, actions[1..]) == AppContext.Run(env, t.(searchQuery := ""), []);
    NoFilterShowsAll(s.books);
  }
}

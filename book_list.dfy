/**
 * client/src/components/books/BookList.tsx: the catalogue table with its search box and
 * category filter, the category choices, and the Borrow button.
 */
module BookList {
  import opened Records
  import opened Seqs
  import opened Strings
  import BorrowController

  /** `matchesSearch`: title and author ignore case, the ISBN does not. */
  predicate MatchesSearch(b: Book, term: string) {
    || Contains(Lower(b.title), Lower(term))
    || Contains(Lower(b.author), Lower(term))
    || Contains(b.isbn, term)
  }

  /** `matchesCategory`: an empty selection matches every book. */
  predicate MatchesCategory(b: Book, category: string) {
    category == "" || b.category == category
  }

  function Matches(term: string, category: string): Book -> bool {
    (b: Book) => MatchesSearch(b, term) && MatchesCategory(b, category)
  }

  /** `filteredBooks`: the matching books, in catalogue order, and all of them. */
  function FilteredBooks(books: seq<Book>, term: string, category: string): (r: seq<Book>)
    ensures IsSubsequence(r, books)
    ensures forall k :: 0 <= k < |r| ==> MatchesSearch(r[k], term) && MatchesCategory(r[k], category)
    ensures forall k :: 0 <= k < |books| && MatchesSearch(books[k], term) && MatchesCategory(books[k], category) ==>
      books[k] in r
    ensures forall b :: multiset(r)[b] == if MatchesSearch(b, term) && MatchesCategory(b, category) then multiset(books)[b] else 0
  {
    var r := Filter(books, Matches(term, category));
    assert forall k :: 0 <= k < |r| ==> Matches(term, category)(r[k]);
    FilterMultiset(books, Matches(term, category));
    r
  }

  /** With an empty search box and no category chosen, every book is listed. */
  lemma EmptyFiltersListAll(books: seq<Book>)
    ensures FilteredBooks(books, "", "") == books
  {
    forall k | 0 <= k < |books| ensures Matches("", "")(books[k]) {
      ContainsEmpty(Lower(books[k].title));
    }
    FilterKeepsAll(books, Matches("", ""));
  }

  /** A non-empty category lists only books of exactly that category. */
  lemma CategoryIsExact(books: seq<Book>, term: string, category: string)
    requires category != ""
    ensures forall k :: 0 <= k < |FilteredBooks(books, term, category)| ==>
      FilteredBooks(books, term, category)[k].category == category
  {
  }

  function CategoriesOf(books: seq<Book>): (r: seq<string>)
    ensures |r| == |books| && forall k :: 0 <= k < |books| ==> r[k] == books[k].category
  {
    seq(|books|, k requires 0 <= k < |books| => books[k].category)
  }

  /** `[...new Set(books.map(book => book.category))]`. */
  function Categories(books: seq<Book>): seq<string> {
    Distinct(CategoriesOf(books))
  }

  /** No category is offered twice, each appears in order of its first book, and every book's category is offered. */
  lemma CategoriesAreDistinctFirstOccurrences(books: seq<Book>)
    ensures NoDuplicates(Categories(books))
    ensures forall c :: c in Categories(books) <==> c in CategoriesOf(books)
    ensures forall c :: c in Categories(books) <==> exists k :: 0 <= k < |books| && books[k].category == c
    ensures InFirstOccurrenceOrder(Categories(books), CategoriesOf(books))
  {
    DistinctProperties(CategoriesOf(books));
    var cs := CategoriesOf(books);
    forall c | c in Categories(books) ensures exists k :: 0 <= k < |books| && books[k].category == c {
      assert c in cs;
      var k :| 0 <= k < |cs| && cs[k] == c;
      assert books[k].category == c;
    }
  }

  /** The Borrow button is shown for a row when copies are on the shelf. */
  predicate OffersBorrow(b: Book) {
    b.availableQuantity > 0
  }

  /**
   * For a listed row with a unique key, the button is shown exactly when the server
   * would find copies to lend.
   */
  lemma OffersBorrowMatchesServer(books: seq<Book>, i: nat)
    requires i < |books|
    requires forall j :: 0 <= j < |books| && j != i ==> books[j].id != books[i].id
    ensures OffersBorrow(books[i]) <==> BorrowController.Available(books, books[i].id) > 0
  {
    assert BookWithId(books[i].id)(books[i]);
  }
}

/** The books facade: a book search through the product API, each item reduced to a Book. */
module Books {
  import opened Wrappers
  import opened Text
  import opened Strconv
  import opened Clock
  import Amazon

  /** The facade over a configured product API client (books.New builds it). */
  datatype API = API(amazon: Amazon.AmazonProductAPI)

  /** The product category every book search uses. */
  const BooksIndex: Str := "Books"

  datatype BookImage = BookImage(url: Str, width: int, height: int)

  /** A book; a missing large image (nil in Go) is None. */
  datatype Book = Book(title: Str, isbn: Str, url: Str, largeImage: Option<BookImage>)

  /** The book an item becomes: title and EAN from its attributes, its detail page as the URL,
      its large image, when it has one, with width and height widened to int. */
  predicate Describes(book: Book, item: Amazon.Item)
    requires item.itemAttributes.Some?
  {
    && book.title == item.itemAttributes.value.title
    && book.isbn == item.itemAttributes.value.ean
    && book.url == item.detailPageURL
    && (book.largeImage.None? <==> item.largeImage.None?)
    && (item.largeImage.Some? ==>
          && book.largeImage.value.url == item.largeImage.value.url
          && book.largeImage.value.width == item.largeImage.value.width
          && book.largeImage.value.height == item.largeImage.value.height)
  }

  /** Every item of a decoded response carries attributes (reading nil attributes panics). */
  predicate AllHaveAttributes(items: seq<Amazon.Item>)
  {
    forall i | 0 <= i < |items| :: items[i].itemAttributes.Some?
  }

  /** API.Search: searches the "Books" index; a search error is returned as it is, otherwise
      the items become books, one each, in the order of the response. */
  method Search(api: API, env: Amazon.Collaborators, now: Instant, keywords: Str, page: Int64)
    returns (r: Result<seq<Book>, Error>)
    requires var outcome := Amazon.SearchOutcome(api.amazon, env, now, BooksIndex, keywords, page);
      outcome.Success? ==> AllHaveAttributes(outcome.value.items.items)
    ensures var outcome := Amazon.SearchOutcome(api.amazon, env, now, BooksIndex, keywords, page);
      match outcome
      case Failure(e) => r == Failure(e)
      case Success(isr) =>
        && r.Success? && |r.value| == |isr.items.items|
        && forall i | 0 <= i < |r.value| :: Describes(r.value[i], isr.items.items[i])
  {
    var found := Amazon.Search(api.amazon, env, now, BooksIndex, keywords, page);
    if found.Failure? {
      return Failure(found.error);
    }
    var books := ToBooks(found.value.items.items);
    return Success(books);
  }

  /** The loop of API.Search: one book per item, in order. */
  method ToBooks(items: seq<Amazon.Item>) returns (books: seq<Book>)
    requires AllHaveAttributes(items)
    ensures |books| == |items|
    ensures forall i | 0 <= i < |books| :: Describes(books[i], items[i])
  {
    books := [];
    for i := 0 to |items|
      invariant |books| == i
      invariant forall j | 0 <= j < i :: Describes(books[j], items[j])
    {
      var item := items[i];
      var img: Option<BookImage> := None;
      if item.largeImage.Some? {
        img := Some(BookImage(item.largeImage.value.url, item.largeImage.value.width, item.largeImage.value.height));
      }
      var b := Book(item.itemAttributes.value.title, item.itemAttributes.value.ean, item.detailPageURL, img);
      books := books + [b];
    }
  }

  /** The book determined by an item: two books describing the same item are the same book. */
  lemma DescribesUnique(b1: Book, b2: Book, item: Amazon.Item)
    requires item.itemAttributes.Some? && Describes(b1, item) && Describes(b2, item)
    ensures b1 == b2
  {
    if item.largeImage.Some? {
      assert b1.largeImage.value == b2.largeImage.value;
    }
  }
}

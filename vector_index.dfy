/** What `build_vector_db` in app.py hands to the vector store for each record,
    and the positional id scheme `article_{idx}` that ties an index entry back
    to the record list. Embeddings and the store itself are not modelled. */
module VectorIndex {
  import Articles

  datatype Option<T> = None | Some(value: T)

  /** One `collection.add` call without its embedding: the id, the document
      text, and the metadata (`article_no`, `title`). */
  datatype IndexEntry = IndexEntry(id: string, document: string, articleNo: string, title: string)

  predicate IsDigit(c: char)
  {
    '0' <= c <= '9'
  }

  function DigitChar(d: nat): (c: char)
    requires d < 10
    ensures IsDigit(c)
  {
    ('0' as int + d) as char
  }

  function DigitValue(c: char): (d: nat)
    requires IsDigit(c)
    ensures d < 10
  {
    c as int - '0' as int
  }

  /** Python's `str(n)` for a non-negative integer: decimal digits, no leading zero. */
  function DecimalString(n: nat): (r: string)
    ensures |r| >= 1
    ensures forall k :: 0 <= k < |r| ==> IsDigit(r[k])
    ensures r[0] == '0' <==> n == 0
  {
    if n < 10 then [DigitChar(n)] else DecimalString(n / 10) + [DigitChar(n % 10)]
  }

  predicate IsDecimal(s: string)
  {
    |s| >= 1 && forall k :: 0 <= k < |s| ==> IsDigit(s[k])
  }

  /** The number a string of decimal digits denotes. */
  function DecimalValue(s: string): nat
    requires forall k :: 0 <= k < |s| ==> IsDigit(s[k])
  {
    if s == [] then 0 else 10 * DecimalValue(s[..|s| - 1]) + DigitValue(s[|s| - 1])
  }

  /** Reading back the decimal string of `n` gives `n`. */
  lemma {:induction false} DecimalRoundTrip(n: nat)
    ensures DecimalValue(DecimalString(n)) == n
  {
    if n >= 10 {
      var s := DecimalString(n);
      DecimalRoundTrip(n / 10);
      assert s[..|s| - 1] == DecimalString(n / 10);
    }
  }

  const IdPrefix := "article_"

  /** The id `f"article_{idx}"` of the record at position `idx`. */
  function ArticleId(idx: nat): string
  {
    IdPrefix + DecimalString(idx)
  }

  /** The position an id of the form `article_<digits>` names, if it has that form. */
  function ParseArticleId(id: string): Option<nat>
  {
    if |id| > |IdPrefix| && id[..|IdPrefix|] == IdPrefix && IsDecimal(id[|IdPrefix|..])
    then Some(DecimalValue(id[|IdPrefix|..]))
    else None
  }

  /** The position can be read back from the id. */
  lemma ParseArticleIdRoundTrip(idx: nat)
    ensures ParseArticleId(ArticleId(idx)) == Some(idx)
  {
    var id := ArticleId(idx);
    assert id[..|IdPrefix|] == IdPrefix;
    assert id[|IdPrefix|..] == DecimalString(idx);
    DecimalRoundTrip(idx);
  }

  /** Records at distinct positions get distinct ids. */
  lemma ArticleIdsDistinct(i: nat, j: nat)
    requires i != j
    ensures ArticleId(i) != ArticleId(j)
  {
    ParseArticleIdRoundTrip(i);
    ParseArticleIdRoundTrip(j);
  }

  /** The record an index id refers to, if the id has the `article_<idx>` form
      and the position is in range. */
  function ArticleForId(articles: seq<Articles.ArticleRecord>, id: string): Option<Articles.ArticleRecord>
  {
    match ParseArticleId(id)
    case Some(idx) => if idx < |articles| then Some(articles[idx]) else None
    case None => None
  }

  /** The id given to the record at a position leads back to that record, whole. */
  lemma ArticleForIdAt(articles: seq<Articles.ArticleRecord>, idx: nat)
    requires idx < |articles|
    ensures ArticleForId(articles, ArticleId(idx)) == Some(articles[idx])
  {
    ParseArticleIdRoundTrip(idx);
  }

  /** The loop of `build_vector_db`: one entry per record, in order, with the
      record's untruncated full text as the document. */
  method BuildIndexEntries(articles: seq<Articles.ArticleRecord>) returns (entries: seq<IndexEntry>)
    ensures |entries| == |articles|
    ensures forall idx :: 0 <= idx < |entries| ==>
      entries[idx] == IndexEntry(ArticleId(idx), articles[idx].fullText, articles[idx].articleNo, articles[idx].title)
    ensures forall i, j :: 0 <= i < j < |entries| ==> entries[i].id != entries[j].id
    ensures forall idx :: 0 <= idx < |entries| ==> ArticleForId(articles, entries[idx].id) == Some(articles[idx])
  {
    entries := [];
    for idx := 0 to |articles|
      invariant |entries| == idx
      invariant forall k :: 0 <= k < idx ==>
        entries[k] == IndexEntry(ArticleId(k), articles[k].fullText, articles[k].articleNo, articles[k].title)
    {
      var article := articles[idx];
      entries := entries + [IndexEntry(ArticleId(idx), article.fullText, article.articleNo, article.title)];
    }
    forall i, j | 0 <= i < j < |entries|
      ensures entries[i].id != entries[j].id
    {
      ArticleIdsDistinct(i, j);
    }
    forall idx | 0 <= idx < |entries|
      ensures ArticleForId(articles, entries[idx].id) == Some(articles[idx])
    {
      ArticleForIdAt(articles, idx);
    }
  }
}

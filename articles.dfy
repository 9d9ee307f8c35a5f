/** The article records of the Document Store, as `get_law_articles` in app.py
    builds them from the statute's parsed XML. Each raw article carries the
    already extracted `조문번호` (number), `조문제목` (title), `조문내용` (content)
    and the `항내용` text of every `항` (paragraph) below it; a missing element
    reads as the empty string. */
module Articles {
  import opened Sequences
  import opened Text

  /** One `조문단위` element after parsing. */
  datatype RawArticle = RawArticle(articleNo: string, title: string, content: string, hangs: seq<string>)

  /** One entry of the list `get_law_articles` returns. */
  datatype ArticleRecord = ArticleRecord(articleNo: string, title: string, fullText: string)

  /** Python truthiness of a `str`. */
  predicate IsNonEmpty(s: string)
  {
    s != ""
  }

  /** The `항` texts collected into `hang_list`: the non-empty ones, in order. */
  function NonEmptyHangs(hangs: seq<string>): seq<string>
  {
    Filter(IsNonEmpty, hangs)
  }

  /** The heading `제{no}조` every full text starts with. */
  function Heading(articleNo: string): string
  {
    "제" + articleNo + "조"
  }

  /** The heading, followed by `(title)` when the title is non-empty. */
  function TitledHeading(a: RawArticle): string
  {
    if a.title != "" then Heading(a.articleNo) + "(" + a.title + ")" else Heading(a.articleNo)
  }

  /** The text before the `항` part: the titled heading and a line break, then
      the content and its own line break when there is content. */
  function Lead(a: RawArticle): string
  {
    var headLine := TitledHeading(a) + "\n";
    if a.content != "" then headLine + a.content + "\n" else headLine
  }

  /** `full_text` before it is stripped: the lead, then the non-empty `항`
      texts joined by line breaks when there are any. */
  function RawText(a: RawArticle): string
  {
    var hs := NonEmptyHangs(a.hangs);
    if hs != [] then Lead(a) + Join("\n", hs) else Lead(a)
  }

  /** Whether `get_law_articles` emits a record for the article. */
  predicate Kept(a: RawArticle)
  {
    a.content != "" || NonEmptyHangs(a.hangs) != []
  }

  function ToRecord(a: RawArticle): ArticleRecord
  {
    ArticleRecord(a.articleNo, a.title, Strip(RawText(a)))
  }

  /** The list `get_law_articles` returns for the raw articles, as a specification. */
  function Normalise(raws: seq<RawArticle>): seq<ArticleRecord>
  {
    if raws == [] then []
    else
      var a := raws[|raws| - 1];
      Normalise(raws[..|raws| - 1]) + (if Kept(a) then [ToRecord(a)] else [])
  }

  /** One more raw article adds at most its own record at the end. */
  lemma NormaliseStep(raws: seq<RawArticle>, i: nat)
    requires i < |raws|
    ensures Normalise(raws[..i + 1])
      == Normalise(raws[..i]) + (if Kept(raws[i]) then [ToRecord(raws[i])] else [])
  {
    assert raws[..i + 1][..i] == raws[..i];
  }

  /** The record-building loop of `get_law_articles`. */
  method BuildArticleRecords(raws: seq<RawArticle>) returns (articles: seq<ArticleRecord>)
    ensures articles == Normalise(raws)
  {
    articles := [];
    var i := 0;
    while i < |raws|
      invariant 0 <= i <= |raws|
      invariant articles == Normalise(raws[..i])
    {
      var article := raws[i];
      var hangList: seq<string> := [];
      var j := 0;
      while j < |article.hangs|
        invariant 0 <= j <= |article.hangs|
        invariant hangList == NonEmptyHangs(article.hangs[..j])
      {
        var hangContent := article.hangs[j];
        FilterSnoc(IsNonEmpty, article.hangs[..j], hangContent);
        assert article.hangs[..j + 1] == article.hangs[..j] + [hangContent];
        if hangContent != "" {
          hangList := hangList + [hangContent];
        }
        j := j + 1;
      }
      assert article.hangs[..j] == article.hangs;
      assert hangList == NonEmptyHangs(article.hangs);

      var fullText := "제" + article.articleNo + "조";
      if article.title != "" {
        fullText := fullText + "(" + article.title + ")";
      }
      assert fullText == TitledHeading(article);
      fullText := fullText + "\n";
      if article.content != "" {
        fullText := fullText + article.content + "\n";
      }
      assert fullText == Lead(article);
      if hangList != [] {
        fullText := fullText + Join("\n", hangList);
      }
      assert fullText == RawText(article);
      assert Kept(article) <==> article.content != "" || hangList != [];

      NormaliseStep(raws, i);
      assert ToRecord(article) == ArticleRecord(article.articleNo, article.title, Strip(fullText));
      if article.content != "" || hangList != [] {
        articles := articles + [ArticleRecord(article.articleNo, article.title, Strip(fullText))];
      }
      i := i + 1;
    }
    assert raws[..i] == raws;
  }

  /** A prefix of `x` is a prefix of anything `x` is extended to. */
  lemma PrefixExtends(p: string, x: string, y: string)
    requires p <= x
    ensures p <= x + y
  {
    assert (x + y)[..|x|] == x;
  }

  /** The raw text opens with the titled heading, its line break, and the lead. */
  lemma RawTextOpens(a: RawArticle)
    ensures TitledHeading(a) + "\n" <= Lead(a) <= RawText(a)
  {
    var headLine := TitledHeading(a) + "\n";
    if a.content != "" {
      PrefixExtends(headLine, headLine, a.content);
      PrefixExtends(headLine, headLine + a.content, "\n");
    }
    var hs := NonEmptyHangs(a.hangs);
    if hs != [] {
      PrefixExtends(Lead(a), Lead(a), Join("\n", hs));
    }
  }

  /** The raw text opens with the heading `제{no}조`. */
  lemma RawTextStart(a: RawArticle)
    ensures var h := Heading(a.articleNo);
      |h| <= |RawText(a)| && RawText(a)[..|h|] == h
      && RawText(a)[0] == '제' && RawText(a)[|h| - 1] == '조'
  {
    var h := Heading(a.articleNo);
    RawTextOpens(a);
    if a.title != "" {
      PrefixExtends(h, h, "(");
      PrefixExtends(h, h + "(", a.title);
      PrefixExtends(h, h + "(" + a.title, ")");
    }
    PrefixExtends(h, TitledHeading(a), "\n");
    assert h <= RawText(a);
  }

  /** Stripping only drops whitespace from the end of the raw text, because the
      leading `제` is not whitespace; no other character is lost. */
  lemma FullTextFromRaw(a: RawArticle)
    ensures var raw, ft := RawText(a), ToRecord(a).fullText;
      ft == raw[..|ft|] && AllWhitespaceIn(raw, |ft|, |raw|)
      && forall k :: 0 <= k < |raw| && !IsWhitespace(raw[k]) ==> k < |ft|
  {
    RawTextStart(a);
    StripNoLeading(RawText(a));
  }

  /** A prefix of the raw text that ends in a character other than whitespace
      survives the strip whole. */
  lemma PrefixSurvives(raw: string, ft: string, p: string)
    requires |ft| <= |raw| && ft == raw[..|ft|]
    requires forall k :: 0 <= k < |raw| && !IsWhitespace(raw[k]) ==> k < |ft|
    requires p != [] && |p| <= |raw| && raw[..|p|] == p && !IsWhitespace(p[|p| - 1])
    ensures p <= ft
  {
    assert raw[|p| - 1] == p[|p| - 1];
    assert ft[..|p|] == raw[..|p|];
  }

  /** Every record's full text starts with `제{no}조`. */
  lemma FullTextStartsWithHeading(a: RawArticle)
    ensures Heading(a.articleNo) <= ToRecord(a).fullText
  {
    RawTextStart(a);
    FullTextFromRaw(a);
    PrefixSurvives(RawText(a), ToRecord(a).fullText, Heading(a.articleNo));
  }

  /** `(title)` follows the heading in the full text exactly when the title is non-empty. */
  lemma TitleFollowsHeading(a: RawArticle)
    ensures Heading(a.articleNo) + "(" + a.title + ")" <= ToRecord(a).fullText <==> a.title != ""
  {
    var raw, ft := RawText(a), ToRecord(a).fullText;
    var h := Heading(a.articleNo);
    var titled := h + "(" + a.title + ")";
    FullTextFromRaw(a);
    RawTextOpens(a);
    if a.title != "" {
      assert titled == TitledHeading(a);
      PrefixExtends(titled, titled, "\n");
      PrefixSurvives(raw, ft, titled);
    } else {
      assert h + "\n" <= raw;
      assert raw[|h|] == '\n';
    }
  }

  /** The full text is never empty and neither starts nor ends with whitespace. */
  lemma FullTextTrimmed(a: RawArticle)
    ensures var ft := ToRecord(a).fullText;
      ft != [] && !IsWhitespace(ft[0]) && !IsWhitespace(ft[|ft| - 1])
  {
    RawTextStart(a);
    StripKeepsFirst(RawText(a));
  }

  /** An article is kept exactly when it has content or some non-empty `항`. */
  lemma KeptIff(a: RawArticle)
    ensures Kept(a) <==> a.content != "" || exists k :: 0 <= k < |a.hangs| && a.hangs[k] != ""
  {
    FilterEmptyIff(IsNonEmpty, a.hangs);
  }

  /** Where the k-th non-empty `항` text starts in the raw text. */
  function HangStart(a: RawArticle, k: nat): nat
    requires k < |NonEmptyHangs(a.hangs)|
  {
    |Lead(a)| + Offset("\n", NonEmptyHangs(a.hangs), k)
  }

  /** The `항` part of the raw text: the non-empty `항` texts in their original
      order, each at its offset after the lead, one line break between
      neighbours and nothing after the last. */
  lemma HangsInOrder(a: RawArticle, k: nat)
    requires k < |NonEmptyHangs(a.hangs)|
    ensures HangStart(a, k) + |NonEmptyHangs(a.hangs)[k]| <= |RawText(a)|
    ensures RawText(a)[HangStart(a, k)..HangStart(a, k) + |NonEmptyHangs(a.hangs)[k]|]
      == NonEmptyHangs(a.hangs)[k]
    ensures k + 1 < |NonEmptyHangs(a.hangs)| ==>
      HangStart(a, k) + |NonEmptyHangs(a.hangs)[k]| + 1 <= |RawText(a)|
      && RawText(a)[HangStart(a, k) + |NonEmptyHangs(a.hangs)[k]|..][..1] == "\n"
    ensures k + 1 == |NonEmptyHangs(a.hangs)| ==>
      HangStart(a, k) + |NonEmptyHangs(a.hangs)[k]| == |RawText(a)|
  {
    var hs := NonEmptyHangs(a.hangs);
    var l := Lead(a);
    var raw := RawText(a);
    assert raw == l + Join("\n", hs);
    JoinAtAfter(l, "\n", hs, k);
    if k + 1 < |hs| {
      var end := HangStart(a, k) + |hs[k]|;
      assert raw[end..][..1] == raw[end..end + 1];
    }
  }

  /** The `항` texts that reach the record are exactly the non-empty ones, in
      their original order. */
  lemma NonEmptyHangsExact(hangs: seq<string>)
    ensures var hs := NonEmptyHangs(hangs);
      var pos := Positions(IsNonEmpty, hangs);
      |hs| == |pos| <= |hangs| && StrictlyIncreasing(pos)
      && (forall k :: 0 <= k < |hs| ==> hs[k] == hangs[pos[k]])
      && (forall i :: 0 <= i < |hangs| ==> (hangs[i] != "" <==> i in pos))
  {
    FilterAt(IsNonEmpty, hangs);
  }

  /** Normalise formats, one by one, the articles that Filter keeps. */
  lemma {:induction false} NormaliseFormatsKept(raws: seq<RawArticle>)
    ensures |Normalise(raws)| == |Filter(Kept, raws)|
    ensures forall k :: 0 <= k < |Normalise(raws)| ==> Normalise(raws)[k] == ToRecord(Filter(Kept, raws)[k])
  {
    if raws != [] {
      NormaliseFormatsKept(raws[..|raws| - 1]);
    }
  }

  /** The records come out in input order, one per kept article and none for a
      dropped one, with the number and title copied verbatim. */
  lemma NormaliseOrder(raws: seq<RawArticle>)
    ensures var out, pos := Normalise(raws), Positions(Kept, raws);
      |out| == |pos| <= |raws| && StrictlyIncreasing(pos)
      && (forall k :: 0 <= k < |out| ==>
            out[k].articleNo == raws[pos[k]].articleNo
            && out[k].title == raws[pos[k]].title
            && out[k] == ToRecord(raws[pos[k]]))
      && (forall i :: 0 <= i < |raws| ==> (Kept(raws[i]) <==> i in pos))
  {
    FilterAt(Kept, raws);
    NormaliseFormatsKept(raws);
  }
}

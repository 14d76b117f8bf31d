/** The deterministic parts of the news/article data generator: how `num_docs` documents are
    split into batches, how a news text grows and is cut, and how the url path is made from
    the title. Faker's sentences and paragraphs and `random` draws are inputs. */
module GenerateData {
  import opened Wrappers
  import opened Text
  import opened Uuids

  const MinTextLength: nat := 50
  const MaxTextLength: nat := 10000

  /** What `generate_func` is bound to. */
  datatype DocKind = News | Article

  /** `generate_news_item if data_type == "news" else generate_article`. */
  function KindOf(dataType: string): (k: DocKind)
    ensures k == News <==> dataType == "news"
  {
    if dataType == "news" then News else Article
  }

  function Min(a: int, b: int): int {
    if a < b then a else b
  }

  /** The measure of `range(i, numDocs, step)` that shrinks each step. */
  function Remaining(numDocs: int, step: int, i: int): nat {
    if step > 0 then (if numDocs - i > 0 then numDocs - i else 0)
    else if step < 0 then (if i - numDocs > 0 then i - numDocs else 0)
    else 0
  }

  /** The lengths of the batches `generate_data_generator` yields from position `i` on:
      `range(0, num_docs, batch_size)` with each batch `min(batch_size, num_docs - i)` long
      (an empty list when that is not positive). */
  function BatchSizes(numDocs: int, step: int, i: int): (sizes: seq<nat>)
    requires step != 0
    ensures step < 0 ==> forall k | 0 <= k < |sizes| :: sizes[k] == 0
    decreases Remaining(numDocs, step, i)
  {
    if (step > 0 && i < numDocs) || (step < 0 && i > numDocs) then
      var size := Min(step, numDocs - i);
      [if size > 0 then size else 0] + BatchSizes(numDocs, step, i + step)
    else []
  }

  function Sum(s: seq<nat>): nat {
    if s == [] then 0 else s[0] + Sum(s[1..])
  }

  /** The generator loop, yielding the batch lengths in order. A zero `batch_size` makes
      `range` raise `ValueError`. */
  method GenerateBatches(numDocs: int, batchSize: int) returns (r: Result<seq<nat>, string>)
    ensures batchSize == 0 <==> r.Failure?
    ensures batchSize == 0 ==> r.error == "range() arg 3 must not be zero"
    ensures batchSize != 0 ==> r.value == BatchSizes(numDocs, batchSize, 0)
  {
    if batchSize == 0 {
      return Failure("range() arg 3 must not be zero");
    }
    var sizes: seq<nat> := [];
    var i := 0;
    while (batchSize > 0 && i < numDocs) || (batchSize < 0 && i > numDocs)
      invariant sizes + BatchSizes(numDocs, batchSize, i) == BatchSizes(numDocs, batchSize, 0)
      decreases Remaining(numDocs, batchSize, i)
    {
      var current := Min(batchSize, numDocs - i);
      var batch := if current > 0 then current else 0;
      assert BatchSizes(numDocs, batchSize, i) == [batch] + BatchSizes(numDocs, batchSize, i + batchSize);
      sizes := sizes + [batch];
      i := i + batchSize;
    }
    assert sizes + [] == sizes;
    return Success(sizes);
  }

  /** The batch lengths add up to the documents still to generate. */
  lemma {:induction false} BatchSizesSum(numDocs: int, step: int, i: int)
    requires step > 0
    ensures Sum(BatchSizes(numDocs, step, i)) == Remaining(numDocs, step, i)
    decreases Remaining(numDocs, step, i)
  {
    if i < numDocs {
      BatchSizesSum(numDocs, step, i + step);
    }
  }

  /** Every batch holds between 1 and `batch_size` documents, and every batch but the last
      exactly `batch_size`. */
  lemma {:induction false} BatchSizesBounds(numDocs: int, step: int, i: int)
    requires step > 0
    ensures forall k | 0 <= k < |BatchSizes(numDocs, step, i)| :: 1 <= BatchSizes(numDocs, step, i)[k] <= step
    ensures forall k | 0 <= k < |BatchSizes(numDocs, step, i)| - 1 :: BatchSizes(numDocs, step, i)[k] == step
    decreases Remaining(numDocs, step, i)
  {
    if i < numDocs {
      BatchSizesBounds(numDocs, step, i + step);
      var rest := BatchSizes(numDocs, step, i + step);
      var b := BatchSizes(numDocs, step, i);
      var size := Min(step, numDocs - i);
      assert b == [size] + rest;
      assert rest != [] ==> size == step;
      forall k | 0 <= k < |b| ensures 1 <= b[k] <= step && (k < |b| - 1 ==> b[k] == step) {
        if k > 0 {
          assert b[k] == rest[k - 1];
          assert 1 <= rest[k - 1] <= step;
        } else {
          assert b[0] == size;
          assert size > 0;
        }
      }
    }
  }

  /** There are `ceil(remaining / batch_size)` batches: none when nothing remains, otherwise
      `c` batches with `(c - 1) * batch_size < remaining <= c * batch_size`. */
  lemma {:induction false} BatchSizesCount(numDocs: int, step: int, i: int)
    requires step > 0
    ensures var c := |BatchSizes(numDocs, step, i)|; var left := Remaining(numDocs, step, i);
      && (c == 0 <==> left == 0)
      && (c - 1) * step < left <= c * step
    decreases Remaining(numDocs, step, i)
  {
    if i < numDocs {
      BatchSizesCount(numDocs, step, i + step);
      var m := |BatchSizes(numDocs, step, i + step)|;
      assert (m + 1) * step == m * step + step;
    }
  }

  /** All of `generate_data_generator(num_docs, batch_size)` for a positive batch size: the
      batch lengths sum to `num_docs` (nothing for `num_docs <= 0`), each lies in
      `1 .. batch_size`, all but the last are full, and there are `ceil(num_docs / batch_size)` of them. */
  lemma GeneratorBatches(numDocs: int, batchSize: int)
    requires batchSize > 0
    ensures var b := BatchSizes(numDocs, batchSize, 0);
      && Sum(b) == (if numDocs > 0 then numDocs else 0)
      && (forall k | 0 <= k < |b| :: 1 <= b[k] <= batchSize)
      && (forall k | 0 <= k < |b| - 1 :: b[k] == batchSize)
      && (|b| - 1) * batchSize < (if numDocs > 0 then numDocs else 0) <= |b| * batchSize
      && (numDocs <= 0 ==> b == [])
  {
    BatchSizesSum(numDocs, batchSize, 0);
    BatchSizesBounds(numDocs, batchSize, 0);
    BatchSizesCount(numDocs, batchSize, 0);
  }

  /** The body text of `generate_news_item`: the first paragraph, then `" " + paragraph(k)`
      for k = 0, 1, ... while it is shorter than the drawn `text_length`, then cut to
      `MAX_TEXT_LENGTH`. Since `text_length` is drawn from `MIN_TEXT_LENGTH ..
      MAX_TEXT_LENGTH`, the text always ends up within those bounds. */
  method NewsText(first: string, paragraph: nat -> string, textLength: nat) returns (text: string)
    requires MinTextLength <= textLength <= MaxTextLength
    ensures textLength <= |text| <= MaxTextLength
    ensures |first| <= MaxTextLength ==> first <= text
    ensures MaxTextLength < |first| ==> text == first[..MaxTextLength]
  {
    text := first;
    var k := 0;
    while |text| < textLength
      invariant first <= text
      decreases textLength - |text|
    {
      text := text + " " + paragraph(k);
      k := k + 1;
    }
    text := Truncate(text, MaxTextLength);
  }

  /** `s[:n]`. */
  function Truncate(s: string, n: nat): (r: string)
    ensures r <= s
    ensures |r| == if |s| < n then |s| else n
  {
    if |s| <= n then s else s[..n]
  }

  /** `"-".join(title.lower().split()[:5])`. */
  function UrlPath(title: string): (path: string)
    ensures Words(Lower(title)) == [] <==> path == []
  {
    var words := Words(Lower(title));
    Join(words[..if |words| < 5 then |words| else 5], '-')
  }

  lemma {:induction false} JoinNoSpace(ws: seq<string>, sep: char)
    requires !IsSpace(sep)
    requires forall i | 0 <= i < |ws| :: NoSpace(ws[i])
    ensures NoSpace(Join(ws, sep))
  {
    if |ws| > 1 {
      JoinNoSpace(ws[1..], sep);
      var rest := Join(ws[1..], sep);
      var r := ws[0] + [sep] + rest;
      forall i | 0 <= i < |r| ensures !IsSpace(r[i]) {
        if i > |ws[0]| {
          assert r[i] == rest[i - |ws[0]| - 1];
        }
      }
    }
  }

  /** The url path holds no whitespace, and splitting it on '-' gives back the first five
      words of the lower-cased title whenever those words hold no '-' themselves. */
  lemma UrlPathWords(title: string)
    ensures NoSpace(UrlPath(title))
    ensures var words := Words(Lower(title));
      var first := words[..if |words| < 5 then |words| else 5];
      first != [] && (forall i | 0 <= i < |first| :: '-' !in first[i]) ==>
        SplitOn(UrlPath(title), '-') == first && |first| <= 5
  {
    var words := Words(Lower(title));
    var first := words[..if |words| < 5 then |words| else 5];
    assert forall i | 0 <= i < |first| :: NoSpace(first[i]) by {
      forall i | 0 <= i < |first| ensures NoSpace(first[i]) {
        assert first[i] == words[i];
      }
    }
    JoinNoSpace(first, '-');
    if first != [] && forall i | 0 <= i < |first| :: '-' !in first[i] {
      SplitJoin(first, '-');
    }
  }

  /** `f"https://www.{domain}/news/{url_path}-{str(uuid.uuid4())[:8]}"`, the fresh id an input. */
  function NewsUrl(domain: string, title: string, id: Uuid): (url: string)
    ensures "https://www." <= url
  {
    "https://www." + domain + "/news/" + UrlPath(title) + "-" + Format(id)[..8]
  }

  /** The url ends in the url path, a dash and the first eight hexadecimal digits of the id. */
  lemma NewsUrlSuffix(domain: string, title: string, id: Uuid)
    ensures NewsUrl(domain, title, id) ==
      "https://www." + domain + "/news/" + UrlPath(title) + "-" + HexString(id[..8])
    ensures var url := NewsUrl(domain, title, id); |url| >= 8 && url[|url| - 8..] == HexString(id[..8])
  {
    var h := HexString(id[..8]);
    assert Format(id) == h + "-" + Dash(HexString(id[8..12]), Dash(HexString(id[12..16]),
      Dash(HexString(id[16..20]), HexString(id[20..]))));
    assert Format(id)[..8] == h;
  }
}

/**
 * Citation deduplication: the loop that walks the source documents of an
 * answer, collects each source_url the first time it is seen into doc_urls
 * and shows one citation line for it.
 */
module Citations {
  import opened ChatTypes

  predicate NoDuplicates(s: seq<Url>)
  {
    forall i, j :: 0 <= i < j < |s| ==> s[i] != s[j]
  }

  /**
   * Order-preserving deduplication, built left to right the way doc_urls is:
   * an element is appended only when it is not present yet.
   */
  function Dedup(s: seq<Url>): (r: seq<Url>)
    ensures |r| <= |s|
    ensures forall x :: x in r <==> x in s
  {
    if s == [] then []
    else
      var d := Dedup(s[..|s| - 1]);
      assert s == s[..|s| - 1] + [s[|s| - 1]];
      if s[|s| - 1] in d then d else d + [s[|s| - 1]]
  }

  /** The index of the first occurrence of `x` in `s`. */
  function FirstIndex(s: seq<Url>, x: Url): (i: nat)
    requires x in s
    ensures i < |s| && s[i] == x && x !in s[..i]
  {
    if s[0] == x then 0
    else
      var j := FirstIndex(s[1..], x);
      assert s[..j + 1] == [s[0]] + s[1..][..j];
      1 + j
  }

  /**
   * `t` is the sequence of first occurrences of `s`: each element of `s`
   * exactly once, nothing else, ordered by where it first occurs in `s`.
   */
  ghost predicate IsFirstOccurrences(s: seq<Url>, t: seq<Url>)
  {
    NoDuplicates(t) &&
    (forall x :: x in t <==> x in s) &&
    (forall i, j :: 0 <= i < j < |t| ==> FirstIndex(s, t[i]) < FirstIndex(s, t[j]))
  }

  /** Appending an element leaves the first occurrence of every earlier element where it was. */
  lemma FirstIndexExtend(p: seq<Url>, x: Url, y: Url)
    requires y in p
    ensures y in p + [x] && FirstIndex(p + [x], y) == FirstIndex(p, y)
  {
    assert (p + [x])[..|p|] == p;
  }

  /** In the last position, an element that does not occur earlier is first seen there. */
  lemma FirstIndexLast(p: seq<Url>, x: Url)
    requires x !in p
    ensures x in p + [x] && FirstIndex(p + [x], x) == |p|
  {
    assert (p + [x])[..|p|] == p;
  }

  lemma {:induction false} DedupNoDuplicates(s: seq<Url>)
    ensures NoDuplicates(Dedup(s))
  {
    if s != [] {
      DedupNoDuplicates(s[..|s| - 1]);
    }
  }

  /** Dedup(s) is the sequence of first occurrences of `s`. */
  lemma {:induction false} DedupIsFirstOccurrences(s: seq<Url>)
    ensures IsFirstOccurrences(s, Dedup(s))
  {
    DedupNoDuplicates(s);
    if s != [] {
      var p, x := s[..|s| - 1], s[|s| - 1];
      assert s == p + [x];
      DedupIsFirstOccurrences(p);
      var d := Dedup(p);
      forall y | y in p
        ensures FirstIndex(s, y) == FirstIndex(p, y)
      {
        FirstIndexExtend(p, x, y);
      }
      if x !in d {
        FirstIndexLast(p, x);
        assert Dedup(s) == d + [x];
        forall i, j | 0 <= i < j < |Dedup(s)|
          ensures FirstIndex(s, Dedup(s)[i]) < FirstIndex(s, Dedup(s)[j])
        {
          if j == |d| {
            assert Dedup(s)[i] == d[i] && d[i] in p;
          } else {
            assert Dedup(s)[i] == d[i] && Dedup(s)[j] == d[j];
          }
        }
      }
    }
  }

  /** A repeated last element adds nothing to the first occurrences. */
  lemma FirstOccurrencesDropRepeat(p: seq<Url>, x: Url, t: seq<Url>)
    requires x in p && IsFirstOccurrences(p + [x], t)
    ensures IsFirstOccurrences(p, t)
  {
    forall y | y in p
      ensures FirstIndex(p + [x], y) == FirstIndex(p, y)
    {
      FirstIndexExtend(p, x, y);
    }
  }

  /** A new last element is the last of the first occurrences. */
  lemma FirstOccurrencesLast(p: seq<Url>, x: Url, t: seq<Url>)
    requires x !in p && IsFirstOccurrences(p + [x], t)
    ensures |t| > 0 && t[|t| - 1] == x
  {
    var s := p + [x];
    FirstIndexLast(p, x);
    assert x in t;
    var last := |t| - 1;
    assert t == t[..last] + [t[last]];
    assert FirstIndex(s, t[last]) <= |p|;
    assert forall k :: 0 <= k < last ==> FirstIndex(s, t[k]) < FirstIndex(s, t[last]);
  }

  /** Without the new last element, the rest are the first occurrences of the prefix. */
  lemma FirstOccurrencesDropLast(p: seq<Url>, x: Url, t: seq<Url>)
    requires x !in p && IsFirstOccurrences(p + [x], t)
    ensures |t| > 0 && IsFirstOccurrences(p, t[..|t| - 1])
  {
    FirstOccurrencesLast(p, x, t);
    var u := t[..|t| - 1];
    assert t == u + [x];
    assert NoDuplicates(u) by {
      assert forall k :: 0 <= k < |u| ==> u[k] == t[k];
    }
    SameElementsWithoutLast(p, x, u);
    OrderWithoutLast(p, x, u, t);
  }

  lemma SameElementsWithoutLast(p: seq<Url>, x: Url, u: seq<Url>)
    requires NoDuplicates(u + [x])
    requires forall y :: y in u + [x] <==> y in p + [x]
    requires x !in p
    ensures forall y :: y in u <==> y in p
  {
    var t := u + [x];
    assert forall k :: 0 <= k < |u| ==> u[k] == t[k] != t[|u|];
    forall y
      ensures y in u <==> y in p
    {
      assert y in u + [x] <==> y in u || y == x;
      assert y in p + [x] <==> y in p || y == x;
    }
  }

  lemma OrderWithoutLast(p: seq<Url>, x: Url, u: seq<Url>, t: seq<Url>)
    requires t == u + [x]
    requires forall y :: y in u <==> y in p
    requires forall y :: y in t ==> y in p + [x]
    requires forall i, j :: 0 <= i < j < |t| ==> FirstIndex(p + [x], t[i]) < FirstIndex(p + [x], t[j])
    ensures forall i, j :: 0 <= i < j < |u| ==> FirstIndex(p, u[i]) < FirstIndex(p, u[j])
  {
    forall i, j | 0 <= i < j < |u|
      ensures FirstIndex(p, u[i]) < FirstIndex(p, u[j])
    {
      assert u[i] == t[i] && u[j] == t[j];
      FirstIndexExtend(p, x, u[i]);
      FirstIndexExtend(p, x, u[j]);
    }
  }

  lemma HeadIn(t: seq<Url>)
    ensures |t| > 0 ==> t[0] in t
  {
  }

  lemma NothingInEmpty(t: seq<Url>)
    requires forall y :: y !in t
    ensures t == []
  {
    HeadIn(t);
  }

  /** The first occurrences of `s` are unique: any such sequence is Dedup(s). */
  lemma {:induction false} FirstOccurrencesUnique(s: seq<Url>, t: seq<Url>)
    requires IsFirstOccurrences(s, t)
    ensures t == Dedup(s)
  {
    if s == [] {
      assert forall y :: y !in t;
      NothingInEmpty(t);
    } else {
      var p, x := s[..|s| - 1], s[|s| - 1];
      assert s == p + [x];
      if x in p {
        FirstOccurrencesDropRepeat(p, x, t);
        FirstOccurrencesUnique(p, t);
      } else {
        FirstOccurrencesLast(p, x, t);
        FirstOccurrencesDropLast(p, x, t);
        FirstOccurrencesUnique(p, t[..|t| - 1]);
        assert t == t[..|t| - 1] + [x];
      }
    }
  }

  /** Dedup is characterised by first occurrences, in both directions. */
  lemma DedupCharacterised(s: seq<Url>, t: seq<Url>)
    ensures t == Dedup(s) <==> IsFirstOccurrences(s, t)
  {
    DedupIsFirstOccurrences(s);
    if IsFirstOccurrences(s, t) {
      FirstOccurrencesUnique(s, t);
    }
  }

  /** A sequence without repeats is left as it is. */
  lemma {:induction false} DedupOfNoDuplicates(s: seq<Url>)
    requires NoDuplicates(s)
    ensures Dedup(s) == s
  {
    if s != [] {
      var p := s[..|s| - 1];
      assert NoDuplicates(p);
      DedupOfNoDuplicates(p);
      assert forall k :: 0 <= k < |p| ==> p[k] == s[k] != s[|s| - 1];
      assert s == p + [s[|s| - 1]];
    }
  }

  lemma DedupIdempotent(s: seq<Url>)
    ensures Dedup(Dedup(s)) == Dedup(s)
  {
    DedupNoDuplicates(s);
    DedupOfNoDuplicates(Dedup(s));
  }

  /** Example: source URLs [A, A, B, A, C] give [A, B, C]. */
  lemma DedupExample()
    ensures Dedup(["A", "A", "B", "A", "C"]) == ["A", "B", "C"]
  {
    var s: seq<Url> := ["A", "A", "B", "A", "C"];
    assert s[..1] == ["A"];
    assert s[..2][..1] == s[..1];
    assert s[..3][..2] == s[..2];
    assert s[..4][..3] == s[..3];
    assert s[..5][..4] == s[..4];
    assert s[..5] == s;
    assert Dedup(s[..1]) == ["A"];
    assert Dedup(s[..2]) == ["A"];
    assert Dedup(s[..3]) == ["A", "B"];
    assert Dedup(s[..4]) == ["A", "B"];
  }

  /** The line shown for one cited URL: f"参考元：{url}". */
  function CitationLine(url: Url): string
  {
    CitationPrefix + url
  }

  function CitationLines(urls: seq<Url>): (lines: seq<string>)
  {
    seq(|urls|, i requires 0 <= i < |urls| => CitationLine(urls[i]))
  }

  /**
   * How many documents the citation loop gets through: the index of the first
   * document whose metadata has no source_url (reading it raises KeyError),
   * or all of them.
   */
  function CitedPrefix(docs: seq<Document>): (n: nat)
    ensures n <= |docs| && AllCited(docs[..n])
    ensures n < |docs| ==> !HasSourceUrl(docs[n])
  {
    if docs == [] || !HasSourceUrl(docs[0]) then 0
    else
      var n := CitedPrefix(docs[1..]);
      assert docs[..n + 1] == [docs[0]] + docs[1..][..n];
      1 + n
  }

  /** The source_url of every document, in order. */
  function SourceUrls(docs: seq<Document>): (urls: seq<Url>)
    requires AllCited(docs)
  {
    seq(|docs|, i requires 0 <= i < |docs| => docs[i].metadata[SourceUrlKey])
  }

  /** doc_urls at the end of the citation loop. */
  function CitedUrls(docs: seq<Document>): seq<Url>
  {
    Dedup(SourceUrls(docs[..CitedPrefix(docs)]))
  }

  /**
   * doc_urls never repeats a URL, holds at most one URL per document, lists
   * only URLs of documents the loop reached, in first-occurrence order, and,
   * when every document has a source_url, every one of them.
   */
  lemma CitedUrlsProperties(docs: seq<Document>)
    ensures NoDuplicates(CitedUrls(docs))
    ensures |CitedUrls(docs)| <= |docs|
    ensures IsFirstOccurrences(SourceUrls(docs[..CitedPrefix(docs)]), CitedUrls(docs))
    ensures forall u :: u in CitedUrls(docs) ==>
      exists i :: 0 <= i < CitedPrefix(docs) && HasSourceUrl(docs[i]) && docs[i].metadata[SourceUrlKey] == u
    ensures AllCited(docs) ==>
      forall i :: 0 <= i < |docs| ==> docs[i].metadata[SourceUrlKey] in CitedUrls(docs)
  {
    var n := CitedPrefix(docs);
    var urls := SourceUrls(docs[..n]);
    DedupIsFirstOccurrences(urls);
    forall u | u in CitedUrls(docs)
      ensures exists i :: 0 <= i < n && HasSourceUrl(docs[i]) && docs[i].metadata[SourceUrlKey] == u
    {
      var i := FirstIndex(urls, u);
      assert docs[..n][i] == docs[i];
    }
    if AllCited(docs) {
      assert docs[..n] == docs;
      forall i | 0 <= i < |docs|
        ensures docs[i].metadata[SourceUrlKey] in CitedUrls(docs)
      {
        assert urls[i] == docs[i].metadata[SourceUrlKey];
      }
    }
  }

  lemma DedupSnoc(s: seq<Url>, x: Url)
    ensures Dedup(s + [x]) == if x in Dedup(s) then Dedup(s) else Dedup(s) + [x]
  {
    assert (s + [x])[..|s|] == s;
  }

  lemma CitationLinesSnoc(urls: seq<Url>, url: Url)
    ensures CitationLines(urls + [url]) == CitationLines(urls) + [CitationLine(url)]
  {
  }

  lemma SourceUrlsSnoc(docs: seq<Document>, i: nat)
    requires i < |docs| && AllCited(docs[..i]) && HasSourceUrl(docs[i])
    ensures AllCited(docs[..i + 1])
    ensures SourceUrls(docs[..i + 1]) == SourceUrls(docs[..i]) + [docs[i].metadata[SourceUrlKey]]
  {
    assert docs[..i + 1] == docs[..i] + [docs[i]];
  }

  /** The loop stops at `i` exactly when CitedPrefix says so. */
  lemma {:induction false} CitedPrefixAt(docs: seq<Document>, i: nat)
    requires i <= |docs| && AllCited(docs[..i])
    requires i < |docs| ==> !HasSourceUrl(docs[i])
    ensures CitedPrefix(docs) == i
  {
    if i > 0 {
      assert docs[..i][0] == docs[0];
      assert docs[1..][..i - 1] == docs[..i][1..];
      CitedPrefixAt(docs[1..], i - 1);
    }
  }

  /** Where the loop stops determines what it has gathered. */
  lemma LoopExit(docs: seq<Document>, i: nat, urls: seq<Url>)
    requires i <= |docs| && AllCited(docs[..i])
    requires i < |docs| ==> !HasSourceUrl(docs[i])
    requires urls == Dedup(SourceUrls(docs[..i]))
    ensures i < |docs| <==> !AllCited(docs)
    ensures urls == CitedUrls(docs)
    ensures NoDuplicates(urls) && |urls| <= |docs|
    ensures i == |docs| ==> forall k :: 0 <= k < |docs| ==> docs[k].metadata[SourceUrlKey] in urls
  {
    CitedPrefixAt(docs, i);
    if i == |docs| {
      assert docs[..i] == docs;
    }
    CitedUrlsProperties(docs);
  }

  /**
   * The citation loop. It stops at the first document without a source_url
   * (`missing`); the URLs and lines gathered until then are kept. A line is
   * shown exactly when a URL is appended, so `lines` follows `urls` one to one.
   */
  method Cite(docs: seq<Document>) returns (urls: seq<Url>, lines: seq<string>, missing: bool)
    ensures missing <==> !AllCited(docs)
    ensures urls == CitedUrls(docs)
    ensures lines == CitationLines(urls)
    ensures NoDuplicates(urls) && |urls| <= |docs|
    ensures !missing ==> forall i :: 0 <= i < |docs| ==> docs[i].metadata[SourceUrlKey] in urls
  {
    urls, lines, missing := [], [], false;
    var i := 0;
    while i < |docs| && HasSourceUrl(docs[i])
      invariant 0 <= i <= |docs|
      invariant AllCited(docs[..i])
      invariant urls == Dedup(SourceUrls(docs[..i]))
      invariant lines == CitationLines(urls)
    {
      var url := docs[i].metadata[SourceUrlKey];
      SourceUrlsSnoc(docs, i);
      DedupSnoc(SourceUrls(docs[..i]), url);
      if url !in urls {
        CitationLinesSnoc(urls, url);
        urls := urls + [url];
        lines := lines + [CitationLine(url)];
      }
      i := i + 1;
    }
    // Reading source_url of a document without one raises KeyError here.
    missing := i < |docs|;
    LoopExit(docs, i, urls);
  }
}

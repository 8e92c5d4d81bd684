/** The page markers the PDF extraction writes and the search reads back:
    `ExtractText` puts "---PAGE_<n>---" and a line break before each page,
    and the search splits the stored text on "---PAGE_" and takes the
    number in front of each piece as its page. */
module PageMarkers {
  import opened Text
  import opened Search
  import opened PdfParser

  /** What follows the separator in a page's block: the number, "---",
      and the page's text on lines of its own. */
  function Seg(p: PageText): string {
    NatToString(p.number) + "---" + (NewLine + p.text + NewLine)
  }

  function Segs(ps: seq<PageText>): (r: seq<string>)
    ensures |r| == |ps| && forall i | 0 <= i < |ps| :: r[i] == Seg(ps[i])
  {
    seq(|ps|, i requires 0 <= i < |ps| => Seg(ps[i]))
  }

  /** The piece of a page the search reads back is its number in front of
      the text surrounded by line breaks; a number that fits in 32 bits is
      the page reported. */
  lemma {:induction false} MarkedTextSplits(ps: seq<PageText>)
    requires forall i | 0 <= i < |ps| :: ps[i].number <= Int32Max && !Contains(ps[i].text, PageSeparator)
    ensures var segs := SplitOn(MarkedText(ps), PageSeparator);
      && |segs| == |ps|
      && forall i | 0 <= i < |ps| :: SplitPage(segs[i], i) == Page(ps[i].number, NewLine + ps[i].text + NewLine)
  {
    var segs := SplitOn(MarkedText(ps), PageSeparator);
    if ps != [] {
      StartsWithSeparator(ps);
      SplitFront(Concat(ps));
      SplitTail(ps);
    }
    assert segs == Segs(ps);
    forall i | 0 <= i < |ps| ensures SplitPage(segs[i], i) == Page(ps[i].number, NewLine + ps[i].text + NewLine) {
      var p := ps[i];
      var ds := NatToString(p.number);
      SplitPageHeader(ds, NewLine + p.text + NewLine, i);
      NatToStringRoundTrip(p.number);
    }
  }

  /** A marked text opens with the separator, so splitting drops it. */
  lemma SplitFront(s: string)
    requires |s| >= |PageSeparator| && s[..|PageSeparator|] == PageSeparator
    ensures SplitOn(s, PageSeparator) == SplitOn(s[|PageSeparator|..], PageSeparator)
  {
    assert IndexOf(s, PageSeparator) == 0;
  }

  /** Past the first separator, a marked text splits into the pages' pieces. */
  lemma {:induction false} SplitTail(ps: seq<PageText>)
    requires |ps| > 0
    requires forall i | 0 <= i < |ps| :: !Contains(ps[i].text, PageSeparator)
    ensures SplitOn(Concat(ps)[|PageSeparator|..], PageSeparator) == Segs(ps)
    decreases |ps|
  {
    var p, rest := ps[0], ps[1..];
    TailOf(ps);
    if rest != [] {
      StartsWithSeparator(rest);
    }
    SegIndex(p, Concat(rest));
    SplitStep(Seg(p), Concat(rest));
    if rest != [] {
      SplitTail(rest);
    }
    SegsCons(ps);
  }

  /** Splitting a piece followed by the rest of a marked text. */
  lemma SplitStep(x: string, y: string)
    requires x != []
    requires y == "" || (|y| >= |PageSeparator| && y[..|PageSeparator|] == PageSeparator)
    requires IndexOf(x + y, PageSeparator) == (if y == "" then -1 else |x|)
    ensures SplitOn(x + y, PageSeparator) == [x] + (if y == "" then [] else SplitOn(y[|PageSeparator|..], PageSeparator))
  {
    var s := x + y;
    assert s[..|x|] == x;
    if y != "" {
      assert s[|x| + |PageSeparator|..] == y[|PageSeparator|..];
    } else {
      assert s == x;
    }
  }

  /** The text of pages after the first separator. */
  lemma TailOf(ps: seq<PageText>)
    requires |ps| > 0
    ensures |Concat(ps)| >= |PageSeparator|
    ensures Concat(ps)[|PageSeparator|..] == Seg(ps[0]) + Concat(ps[1..])
  {
    ConcatCons(ps[0], ps[1..]);
    assert ps == [ps[0]] + ps[1..];
    DropFront(PageSeparator, Seg(ps[0]), Concat(ps[1..]));
  }

  /** A marked text of some pages opens with the separator. */
  lemma StartsWithSeparator(ps: seq<PageText>)
    requires |ps| > 0
    ensures |Concat(ps)| >= |PageSeparator| && Concat(ps)[..|PageSeparator|] == PageSeparator
  {
    ConcatCons(ps[0], ps[1..]);
    assert ps == [ps[0]] + ps[1..];
    DropFront(PageSeparator, Seg(ps[0]), Concat(ps[1..]));
  }

  lemma DropFront(a: string, b: string, c: string)
    ensures (a + b + c)[..|a|] == a && (a + b + c)[|a|..] == b + c
  {
  }

  lemma SegsCons(ps: seq<PageText>)
    requires |ps| > 0
    ensures Segs(ps) == [Seg(ps[0])] + Segs(ps[1..])
  {
    var a, b := Segs(ps), [Seg(ps[0])] + Segs(ps[1..]);
    forall i | 0 <= i < |ps| ensures a[i] == b[i] {
      if i > 0 {
        assert b[i] == Segs(ps[1..])[i - 1];
      }
    }
  }

  /** The separator first occurs where the next page's block starts. */
  lemma SegIndex(p: PageText, r: string)
    requires !Contains(p.text, PageSeparator)
    requires r == "" || (|r| >= |PageSeparator| && r[..|PageSeparator|] == PageSeparator)
    ensures IndexOf(Seg(p) + r, PageSeparator) == (if r == "" then -1 else |Seg(p)|)
  {
    var s := Seg(p) + r;
    NoSeparatorInSeg(p, r);
    if r != "" {
      assert s[|Seg(p)|..|Seg(p)| + |PageSeparator|] == r[..|PageSeparator|];
      assert OccursAt(s, PageSeparator, |Seg(p)|);
    }
  }

  /** No separator starts inside a page's piece. */
  lemma NoSeparatorInSeg(p: PageText, r: string)
    requires !Contains(p.text, PageSeparator)
    ensures forall k | 0 <= k < |Seg(p)| :: !OccursAt(Seg(p) + r, PageSeparator, k)
  {
    var ds := NatToString(p.number);
    var s := Seg(p) + r;
    var l, n := |ds|, |p.text|;
    assert forall j | 0 <= j < l :: s[j] == ds[j];
    assert s[l + 3] == '\r' && s[l + 4] == '\n';
    assert s[l + 5 + n] == '\r' && s[l + 6 + n] == '\n';
    assert s[l + 5..l + 5 + n] == p.text;
    assert |Seg(p)| == l + 7 + n;
    forall k | 0 <= k < |Seg(p)| ensures !OccursAt(s, PageSeparator, k) {
      if k < l {
        Blocks(s, k, k);
      } else if k <= l + 3 {
        Blocks(s, k, l + 3);
      } else if k == l + 4 {
        Blocks(s, k, k);
      } else if k + |PageSeparator| <= l + 5 + n {
        if OccursAt(s, PageSeparator, k) {
          assert s[k..k + |PageSeparator|] == p.text[k - l - 5..k - l - 5 + |PageSeparator|];
          assert OccursAt(p.text, PageSeparator, k - l - 5);
          assert false;
        }
      } else if k <= l + 5 + n {
        Blocks(s, k, l + 5 + n);
      } else {
        Blocks(s, k, k);
      }
    }
  }

  /** A digit or a line-break character in the window at `k` rules out an
      occurrence of the separator there. */
  lemma Blocks(s: string, k: nat, m: nat)
    requires k <= m < k + |PageSeparator| && m < |s|
    requires IsDigit(s[m]) || IsLineBreak(s[m])
    ensures !OccursAt(s, PageSeparator, k)
  {
  }

  /** The text of pages `[p] + rest` starts with the block of `p`. */
  lemma {:induction false} ConcatCons(p: PageText, rest: seq<PageText>)
    ensures Concat([p] + rest) == PageBlock(p.number, p.text) + Concat(rest)
    ensures PageBlock(p.number, p.text) == PageSeparator + Seg(p)
    decreases |rest|
  {
    if rest != [] {
      var init := rest[..|rest| - 1];
      assert ([p] + rest)[..|rest|] == [p] + init;
      ConcatCons(p, init);
    }
  }
}

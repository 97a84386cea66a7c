/**
 * The plain-text view of a transcript or remix: its word counter and the
 * "Add to Final" capture of the selected text (or of all of it).
 */
module TranscriptView {
  import opened Base

  /**
   * The characters JavaScript's `trim` removes and its regular-expression
   * class `\s` matches (the two are the same set): the ECMAScript WhiteSpace
   * and LineTerminator characters.
   */
  predicate IsSpace(c: char) {
    || c == ' ' || c == '\t' || c == '\n' || c == '\r'
    || c == '\U{B}' || c == '\U{C}' || c == '\U{A0}' || c == '\U{1680}'
    || ('\U{2000}' <= c <= '\U{200A}')
    || c == '\U{2028}' || c == '\U{2029}' || c == '\U{202F}' || c == '\U{205F}'
    || c == '\U{3000}' || c == '\U{FEFF}'
  }

  /**
   * Leading whitespace removed: what is left is a suffix starting with a
   * non-space, and everything removed is whitespace.
   */
  function TrimStart(s: string): (r: string)
    ensures |r| <= |s| && r == s[|s| - |r|..]
    ensures AllSpace(s[..|s| - |r|])
    ensures r == [] || !IsSpace(r[0])
    ensures s != [] && IsSpace(s[0]) ==> |r| < |s|
  {
    if s != [] && IsSpace(s[0]) then
      var r := TrimStart(s[1..]);
      var k := |s| - |r|;
      TailSlices(s, k);
      AllSpaceConcat([s[0]], s[1..][..k - 1]);
      r
    else s
  }

  /**
   * Trailing whitespace removed: what is left is a prefix ending in a
   * non-space, and everything removed is whitespace.
   */
  function TrimEnd(s: string): (r: string)
    ensures |r| <= |s| && r == s[..|r|]
    ensures AllSpace(s[|r|..])
    ensures r == [] || !IsSpace(r[|r| - 1])
  {
    if s != [] && IsSpace(s[|s| - 1]) then
      var r := TrimEnd(s[..|s| - 1]);
      assert s[|r|..] == s[..|s| - 1][|r|..] + [s[|s| - 1]];
      AllSpaceConcat(s[..|s| - 1][|r|..], [s[|s| - 1]]);
      r
    else s
  }

  /**
   * `s.trim()`: the slice of `s` between its leading and its trailing
   * whitespace.
   */
  function Trim(s: string): (r: string)
    ensures var k := |s| - |TrimStart(s)|;
      k + |r| <= |s| && r == s[k..k + |r|] && AllSpace(s[..k]) && AllSpace(s[k + |r|..])
  {
    var t := TrimStart(s);
    var r := TrimEnd(t);
    SuffixSlices(s, |s| - |t|, |r|);
    r
  }

  /** Slicing the tail is slicing the whole, one position on. */
  lemma TailSlices<T>(s: seq<T>, k: nat)
    requires 1 <= k <= |s|
    ensures s[..k] == [s[0]] + s[1..][..k - 1]
    ensures s[1..][k - 1..] == s[k..]
  {
  }

  /** Slicing a suffix is slicing the whole. */
  lemma SuffixSlices<T>(s: seq<T>, k: nat, n: nat)
    requires k + n <= |s|
    ensures s[k..][..n] == s[k..k + n] && s[k..][n..] == s[k + n..]
  {
  }

  /** A trimmed text begins and ends with a non-space. */
  lemma TrimEndsNonSpace(s: string)
    ensures var r := Trim(s); r == [] || (!IsSpace(r[0]) && !IsSpace(r[|r| - 1]))
  {
  }

  /** No whitespace anywhere in `w`. */
  predicate NoSpace(w: string) {
    forall j :: 0 <= j < |w| ==> !IsSpace(w[j])
  }

  /**
   * `s.split(/\s+/)` with the piece read so far in `cur`: every maximal run of
   * whitespace ends one piece and starts the next (so a leading or trailing
   * run yields an empty piece, and `""` yields `[""]`).
   */
  function Pieces(s: string, cur: string): (r: seq<string>)
    requires NoSpace(cur)
    ensures |r| >= 1 && |cur| <= |r[0]| && r[0][..|cur|] == cur
    ensures forall i :: 0 <= i < |r| ==> NoSpace(r[i])
    ensures s != [] && !IsSpace(s[0]) ==> |r[0]| > |cur|
    ensures forall i :: 0 < i < |r| - 1 ==> r[i] != []
    decreases |s|
  {
    if s == [] then [cur]
    else if IsSpace(s[0]) then [cur] + Pieces(TrimStart(s), [])
    else
      var r := Pieces(s[1..], cur + [s[0]]);
      assert r[0][..|cur|] == r[0][..|cur| + 1][..|cur|];
      r
  }

  /**
   * The maximal whitespace runs of `s`, in order: the separators
   * `split(/\s+/)` cuts at.
   */
  function Gaps(s: string): (g: seq<string>)
    ensures forall i :: 0 <= i < |g| ==> g[i] != [] && AllSpace(g[i])
    decreases |s|
  {
    if s == [] then []
    else if IsSpace(s[0]) then [s[..|s| - |TrimStart(s)|]] + Gaps(TrimStart(s))
    else Gaps(s[1..])
  }

  /** Pieces and separators put back together, alternating, starting and ending with a piece. */
  function Weave(r: seq<string>, g: seq<string>): string
    requires |r| == |g| + 1
    decreases |g|
  {
    if g == [] then r[0] else r[0] + g[0] + Weave(r[1..], g[1..])
  }

  /**
   * The pieces are exactly the text between the whitespace runs: woven back
   * with those runs they give the piece in progress followed by the text.
   */
  lemma {:induction false} PiecesWeave(s: string, cur: string)
    requires NoSpace(cur)
    ensures |Pieces(s, cur)| == |Gaps(s)| + 1
    ensures cur + s == Weave(Pieces(s, cur), Gaps(s))
    decreases |s|
  {
    if s == [] {
      assert cur + s == cur;
    } else if IsSpace(s[0]) {
      PiecesWeave(TrimStart(s), []);
      PiecesWeaveAtSpace(s, cur);
    } else {
      var cur' := cur + [s[0]];
      assert NoSpace(cur') by {
        assert forall j :: 0 <= j < |cur| ==> cur'[j] == cur[j];
      }
      PiecesWeave(s[1..], cur');
      PiecesWeaveAtWord(s, cur);
    }
  }

  /** The step of `PiecesWeave` at a whitespace run, given the claim for the text after it. */
  lemma PiecesWeaveAtSpace(s: string, cur: string)
    requires NoSpace(cur) && s != [] && IsSpace(s[0])
    requires var t := TrimStart(s);
      |Pieces(t, [])| == |Gaps(t)| + 1 && [] + t == Weave(Pieces(t, []), Gaps(t))
    ensures |Pieces(s, cur)| == |Gaps(s)| + 1
    ensures cur + s == Weave(Pieces(s, cur), Gaps(s))
  {
    var t := TrimStart(s);
    var k := |s| - |t|;
    var P, G := Pieces(t, []), Gaps(t);
    assert t == s[k..];
    assert Pieces(s, cur) == [cur] + P;
    assert Gaps(s) == [s[..k]] + G;
    WeaveCons(cur, s[..k], P, G);
    calc {
      Weave(Pieces(s, cur), Gaps(s));
      Weave([cur] + P, [s[..k]] + G);
      cur + s[..k] + Weave(P, G);
      cur + s[..k] + ([] + t);
      { JoinAt(s, k, cur); }
      cur + s;
    }
  }

  /** The step of `PiecesWeave` at a non-space, given the claim for the rest of the text. */
  lemma PiecesWeaveAtWord(s: string, cur: string)
    requires NoSpace(cur) && s != [] && !IsSpace(s[0])
    requires var cur' := cur + [s[0]];
      NoSpace(cur') && |Pieces(s[1..], cur')| == |Gaps(s[1..])| + 1
      && cur' + s[1..] == Weave(Pieces(s[1..], cur'), Gaps(s[1..]))
    ensures |Pieces(s, cur)| == |Gaps(s)| + 1
    ensures cur + s == Weave(Pieces(s, cur), Gaps(s))
  {
    assert Pieces(s, cur) == Pieces(s[1..], cur + [s[0]]);
    assert Gaps(s) == Gaps(s[1..]);
    ConsJoin(cur, s);
  }

  /** Moving the first element of `s` onto the end of a prefix. */
  lemma ConsJoin<T>(pre: seq<T>, s: seq<T>)
    requires s != []
    ensures pre + s == (pre + [s[0]]) + s[1..]
  {
    assert s == [s[0]] + s[1..];
  }

  /** Weaving one more piece and separator in front. */
  lemma WeaveCons(p: string, gap: string, rest: seq<string>, gs: seq<string>)
    requires |rest| == |gs| + 1
    ensures Weave([p] + rest, [gap] + gs) == p + gap + Weave(rest, gs)
  {
    assert ([p] + rest)[1..] == rest && ([gap] + gs)[1..] == gs;
  }

  /** Cutting a text at `k` and joining the halves after a prefix. */
  lemma JoinAt<T>(s: seq<T>, k: nat, pre: seq<T>)
    requires k <= |s|
    ensures pre + s == pre + s[..k] + s[k..]
    ensures pre + s == (pre + s[..k]) + ([] + s[k..])
  {
    assert s == s[..k] + s[k..];
  }

  /** `split(/\s+/)` cuts the text at its whitespace runs and nowhere else. */
  lemma SplitWeave(s: string)
    ensures |Split(s)| == |Gaps(s)| + 1
    ensures s == Weave(Split(s), Gaps(s))
  {
    PiecesWeave(s, []);
    assert [] + s == s;
  }

  /**
   * `s.split(/\s+/)`: at least one piece, no piece holds whitespace, and only
   * the first and the last piece can be empty (a run of whitespace is one
   * separator).
   */
  function Split(s: string): (r: seq<string>)
    ensures |r| >= 1
    ensures forall i :: 0 <= i < |r| ==> NoSpace(r[i])
    ensures forall i :: 0 < i < |r| - 1 ==> r[i] != []
  {
    Pieces(s, [])
  }

  /**
   * `.filter(w => w.length > 0)`: exactly the non-empty pieces are kept, each
   * as often as it occurs, so only the empty pieces are lost.
   */
  function NonEmpty(words: seq<string>): (r: seq<string>)
    ensures forall i :: 0 <= i < |r| ==> r[i] != []
    ensures forall i :: 0 <= i < |words| && words[i] != [] ==> words[i] in r
    ensures forall w :: w in r ==> w in words
    ensures |r| == |words| - multiset(words)[[]]
    ensures forall w :: w != [] ==> multiset(r)[w] == multiset(words)[w]
  {
    assert words != [] ==> words == [words[0]] + words[1..];
    if words == [] then []
    else (if words[0] == [] then [] else [words[0]]) + NonEmpty(words[1..])
  }


  /**
   * Reference definition of a word: a maximal run of non-whitespace. This
   * counts the positions where such a run starts, `afterSpace` telling
   * whether the position before `s` is a space (or the start of the text).
   */
  function RunsAfter(s: string, afterSpace: bool): nat {
    if s == [] then 0
    else (if afterSpace && !IsSpace(s[0]) then 1 else 0) + RunsAfter(s[1..], IsSpace(s[0]))
  }

  function Words(s: string): nat {
    RunsAfter(s, true)
  }

  /** Leading whitespace starts no word. */
  lemma {:induction false} RunsTrimStart(s: string)
    ensures RunsAfter(TrimStart(s), true) == RunsAfter(s, true)
  {
    if s != [] && IsSpace(s[0]) {
      RunsTrimStart(s[1..]);
    }
  }

  /** A whitespace character at the end starts no word. */
  lemma {:induction false} RunsDropTrailingSpace(s: string, afterSpace: bool)
    requires s != [] && IsSpace(s[|s| - 1])
    ensures RunsAfter(s[..|s| - 1], afterSpace) == RunsAfter(s, afterSpace)
  {
    if |s| > 1 {
      assert s[1..][..|s| - 2] == s[..|s| - 1][1..];
      RunsDropTrailingSpace(s[1..], IsSpace(s[0]));
    }
  }

  /** Trailing whitespace starts no word. */
  lemma {:induction false} RunsTrimEnd(s: string, afterSpace: bool)
    ensures RunsAfter(TrimEnd(s), afterSpace) == RunsAfter(s, afterSpace)
  {
    if s != [] && IsSpace(s[|s| - 1]) {
      RunsTrimEnd(s[..|s| - 1], afterSpace);
      RunsDropTrailingSpace(s, afterSpace);
    }
  }

  /** Trimming does not change the number of words. */
  lemma WordsTrim(s: string)
    ensures Words(Trim(s)) == Words(s)
  {
    RunsTrimEnd(TrimStart(s), true);
    RunsTrimStart(s);
  }

  /** Filtering a piece followed by more pieces. */
  lemma NonEmptyCons(w: string, rest: seq<string>)
    ensures |NonEmpty([w] + rest)| == (if w == [] then 0 else 1) + |NonEmpty(rest)|
  {
  }

  /**
   * Splitting on whitespace runs and dropping empty pieces leaves one piece
   * per word still to be read, plus the word in progress in `cur`.
   */
  lemma {:induction false} PiecesCount(s: string, cur: string)
    requires NoSpace(cur)
    ensures |NonEmpty(Pieces(s, cur))| == (if cur == [] then 0 else 1) + RunsAfter(s, cur == [])
    decreases |s|
  {
    if s == [] {
      NonEmptyCons(cur, []);
    } else if IsSpace(s[0]) {
      var t := TrimStart(s);
      assert Pieces(s, cur) == [cur] + Pieces(t, []);
      NonEmptyCons(cur, Pieces(t, []));
      PiecesCount(t, []);
      RunsTrimStart(s);
      assert RunsAfter(s, true) == RunsAfter(s, false);
    } else {
      PiecesCount(s[1..], cur + [s[0]]);
    }
  }

  /**
   * The word counter shown in the view's header (`wordCount`): exactly the
   * number of maximal non-whitespace runs of the text.
   */
  function WordCount(text: string): (r: nat)
    ensures r == Words(text)
  {
    WordsTrim(text);
    PiecesCount(Trim(text), []);
    var t := Trim(text);
    if t == [] then 0 else |NonEmpty(Split(t))|
  }

  /** Every character of `s` is whitespace (the empty text included). */
  predicate AllSpace(s: string) {
    forall i :: 0 <= i < |s| ==> IsSpace(s[i])
  }

  /** Blank texts stay blank when joined. */
  lemma AllSpaceConcat(a: string, b: string)
    requires AllSpace(a) && AllSpace(b)
    ensures AllSpace(a + b)
  {
  }

  /** Leading trim empties exactly the blank texts. */
  lemma TrimStartEmpty(s: string)
    ensures TrimStart(s) == [] <==> AllSpace(s)
  {
    var r := TrimStart(s);
    assert s[..|s|] == s;
    if r != [] {
      assert r[0] == s[|s| - |r|];
    }
  }

  /** `s.trim()` is empty exactly when `s` is blank: the guard of the remix handler and the word counter. */
  lemma TrimEmptyIffBlank(s: string)
    ensures Trim(s) == [] <==> AllSpace(s)
  {
    TrimStartEmpty(s);
    var t := TrimStart(s);
    var k := |s| - |t|;
    if TrimEnd(t) == [] {
      assert t[0..] == t;
      JoinAt(s, k, []);
      assert [] + s == s && [] + s[..k] == s[..k] && s[k..] == t;
      AllSpaceConcat(s[..k], t);
    }
  }

  /** A blank text, and only a blank text, has no words. */
  lemma {:induction false} WordsZeroIffBlank(s: string)
    ensures Words(s) == 0 <==> AllSpace(s)
  {
    if s != [] && IsSpace(s[0]) {
      WordsZeroIffBlank(s[1..]);
      assert AllSpace(s) <==> AllSpace(s[1..]) by {
        assert forall i :: 1 <= i < |s| ==> s[i] == s[1..][i - 1];
      }
    }
  }

  /** The counter shows 0 exactly for a blank text. */
  lemma WordCountZeroIffBlank(text: string)
    ensures WordCount(text) == 0 <==> AllSpace(text)
  {
    WordsZeroIffBlank(text);
  }

  /** `s.substring(start, end)`: both bounds clamped to the length, swapped when out of order. */
  function Substring(s: string, start: nat, end: nat): (r: string)
    ensures start <= end <= |s| ==> r == s[start..end]
    ensures end <= start <= |s| ==> r == s[end..start]
    ensures |s| <= start && |s| <= end ==> r == []
  {
    var a := if start < |s| then start else |s|;
    var b := if end < |s| then end else |s|;
    if a <= b then s[a..b] else s[b..a]
  }

  /** What a capture takes from `text`: the selection when there is one, else all of it. */
  function Fragment(text: string, start: nat, end: nat): (r: string)
    ensures start == end ==> r == text
    ensures start < end <= |text| ==> r == text[start..end]
    ensures start <= |text| && end <= |text| ==> (r == [] <==> text == [])
  {
    if start != end then Substring(text, start, end) else text
  }

  /** The view, with its one piece of local state (the "Added!" confirmation). */
  class TranscriptionView {
    var showConfirmation: bool

    constructor ()
      ensures !showConfirmation
    {
      showConfirmation := false;
    }

    /**
     * `handleAddSelection`. `mounted` says whether the text area exists and
     * `hasCallback` whether an `onAddToFinal` was given; `start` and `end` are
     * the text area's selection offsets. The result is the argument of the one
     * `onAddToFinal` call, or `None` when no call is made.
     */
    method AddSelection(text: string, mounted: bool, hasCallback: bool, start: nat, end: nat)
      returns (added: Option<string>)
      modifies this
      ensures added == if mounted && hasCallback && Fragment(text, start, end) != []
                       then Some(Fragment(text, start, end)) else None
      ensures showConfirmation == (added.Some? || old(showConfirmation))
    {
      if !mounted || !hasCallback {
        return None;
      }
      var textToAdd := "";
      if start != end {
        textToAdd := Substring(text, start, end);
      } else {
        textToAdd := text;
      }
      added := None;
      if textToAdd != "" {
        added := Some(textToAdd);
        showConfirmation := true;
      }
    }
  }

  /** Capturing from "Hello World": the selection 0..5 gives "Hello", no selection gives everything. */
  lemma HelloWorldCapture()
    ensures Fragment("Hello World", 0, 5) == "Hello"
    ensures Fragment("Hello World", 3, 3) == "Hello World"
  {
  }
}

/**
 * How captured fragments become blocks of the final document's markup: each
 * fragment is wrapped in a paragraph, its line breaks turned into `<br/>`
 * tags, and nothing else escaped.
 */
module FinalDocument {

  /** The initial (and reset) content of the final document. */
  const Placeholder: string := "<p>Start building your final document here...</p>"

  const BreakTag: string := "<br/>"

  /** `t.replace(/\n/g, '<br/>')` */
  function BreakLines(t: string): (r: string)
    ensures '\n' !in r
    ensures '\n' !in t ==> r == t
  {
    if t == [] then []
    else (if t[0] == '\n' then BreakTag else [t[0]]) + BreakLines(t[1..])
  }

  /** The block appended for one fragment: `<p>${…}</p>`. */
  function Block(t: string): (r: string)
    ensures |r| >= 7 && r[..3] == "<p>" && r[|r| - 4..] == "</p>"
  {
    "<p>" + BreakLines(t) + "</p>"
  }

  /** The markup of a sequence of fragments appended in order. */
  function Blocks(fragments: seq<string>): string {
    if fragments == [] then []
    else Block(fragments[0]) + Blocks(fragments[1..])
  }

  /** Inverse of `BreakLines`: every `<br/>` back to a line break. */
  function RestoreLines(s: string): string {
    if s == [] then []
    else if |s| >= 5 && s[..5] == BreakTag then "\n" + RestoreLines(s[5..])
    else [s[0]] + RestoreLines(s[1..])
  }

  /** Every `<` in `s` starts a `<br/>` tag, so `s` holds no other tag and no closing tag `</`. */
  ghost predicate OnlyBreakTags(s: string) {
    forall i :: 0 <= i < |s| && s[i] == '<' ==> i + 5 <= |s| && s[i..i + 5] == BreakTag
  }

  /** Text without `<` comes back unchanged from `RestoreLines` after `BreakLines`. */
  lemma {:induction false} RestoreBreakLines(t: string)
    requires '<' !in t
    ensures RestoreLines(BreakLines(t)) == t
  {
    if t != [] {
      var rest := BreakLines(t[1..]);
      RestoreBreakLines(t[1..]);
      assert t == [t[0]] + t[1..];
      if t[0] == '\n' {
        var u := BreakTag + rest;
        assert BreakLines(t) == u;
        assert u[..5] == BreakTag && u[5..] == rest;
        assert RestoreLines(u) == "\n" + RestoreLines(rest);
      } else {
        var u := [t[0]] + rest;
        assert BreakLines(t) == u;
        assert u[0] == t[0] != '<' && u[1..] == rest;
        assert |u| >= 5 ==> u[..5][0] == u[0];
        assert RestoreLines(u) == [t[0]] + RestoreLines(rest);
      }
    }
  }

  /** Without `<` in the text, the only tags `BreakLines` produces are `<br/>`. */
  lemma {:induction false} BreakLinesOnlyBreakTags(t: string)
    requires '<' !in t
    ensures OnlyBreakTags(BreakLines(t))
  {
    if t != [] {
      BreakLinesOnlyBreakTags(t[1..]);
      var head := if t[0] == '\n' then BreakTag else [t[0]];
      var rest := BreakLines(t[1..]);
      assert BreakLines(t) == head + rest;
      forall i | 0 <= i < |head + rest| && (head + rest)[i] == '<'
        ensures i + 5 <= |head + rest| && (head + rest)[i..i + 5] == BreakTag
      {
        if i >= |head| {
          assert rest[i - |head|] == '<';
          assert (head + rest)[i..i + 5] == rest[i - |head|..i - |head| + 5];
        } else {
          assert i == 0 && head == BreakTag;
          assert (head + rest)[..5] == head;
        }
      }
    }
  }

  /** Inside a block over text with only `<br/>` tags there is no closing tag `</`. */
  lemma NoClosingTagInside(r: string, y: string)
    requires OnlyBreakTags(r)
    ensures var s := "<p>" + r + "</p>" + y;
      forall i :: 3 <= i < 3 + |r| ==> !(s[i] == '<' && s[i + 1] == '/')
  {
    var s := "<p>" + r + "</p>" + y;
    forall i | 3 <= i < 3 + |r| && s[i] == '<'
      ensures s[i + 1] != '/'
    {
      assert r[i - 3] == '<';
      assert r[i - 3..i + 2] == BreakTag;
      assert r[i - 2] == 'b';
    }
  }

  /** The first closing tag of the left block cannot fall inside the right block's text. */
  lemma ClosingTagNotEarlier(ra: string, rb: string, x: string, y: string)
    requires OnlyBreakTags(rb)
    requires "<p>" + ra + "</p>" + x == "<p>" + rb + "</p>" + y
    ensures |rb| <= |ra|
  {
    var s := "<p>" + ra + "</p>" + x;
    var k := 3 + |ra|;
    assert s[k] == '<' && s[k + 1] == '/';
    NoClosingTagInside(rb, y);
    assert !(3 <= k < 3 + |rb|);
  }

  /**
   * A block over `<`-free text ends where its first closing tag starts, so
   * two such blocks followed by anything can only be equal when the
   * fragments and what follows are equal.
   */
  lemma BlockPrefixUnique(a: string, b: string, x: string, y: string)
    requires '<' !in a && '<' !in b
    requires Block(a) + x == Block(b) + y
    ensures a == b && x == y
  {
    var ra, rb := BreakLines(a), BreakLines(b);
    var s := Block(a) + x;
    assert s == "<p>" + ra + "</p>" + x;
    assert s == "<p>" + rb + "</p>" + y;
    BreakLinesOnlyBreakTags(a);
    BreakLinesOnlyBreakTags(b);
    ClosingTagNotEarlier(ra, rb, x, y);
    ClosingTagNotEarlier(rb, ra, y, x);
    assert ra == s[3..3 + |ra|] == rb;
    assert x == s[|ra| + 7..] == y;
    RestoreBreakLines(a);
    RestoreBreakLines(b);
  }

  /**
   * Appended fragments never merge: as long as no fragment holds a `<`, the
   * appended markup determines the fragments, their number and their order.
   */
  lemma {:induction false} BlocksInjective(fs: seq<string>, gs: seq<string>)
    requires forall i :: 0 <= i < |fs| ==> '<' !in fs[i]
    requires forall i :: 0 <= i < |gs| ==> '<' !in gs[i]
    requires Blocks(fs) == Blocks(gs)
    ensures fs == gs
  {
    if fs != [] && gs != [] {
      BlockPrefixUnique(fs[0], gs[0], Blocks(fs[1..]), Blocks(gs[1..]));
      BlocksInjective(fs[1..], gs[1..]);
      assert fs == [fs[0]] + fs[1..] && gs == [gs[0]] + gs[1..];
    }
  }

  /** Appending one more fragment appends its block after the earlier ones. */
  lemma {:induction false} BlocksSnoc(fs: seq<string>, f: string)
    ensures Blocks(fs + [f]) == Blocks(fs) + Block(f)
  {
    if fs == [] {
      assert [f][1..] == [];
    } else {
      assert (fs + [f])[1..] == fs[1..] + [f];
      BlocksSnoc(fs[1..], f);
    }
  }

  /** Two appends, in call order, leave the document followed by both blocks in that order. */
  lemma AppendsInOrder(doc: string, a: string, b: string)
    ensures doc + Block(a) + Block(b) == doc + Blocks([a, b])
  {
    BlocksSnoc([a], b);
    assert [a] + [b] == [a, b];
    assert Blocks([a]) == Block(a) + Blocks([]);
  }

  /** What follows a common document is determined by the whole. */
  lemma CancelPrefix(doc: string, x: string, y: string)
    requires doc + x == doc + y
    ensures x == y
  {
    assert x == (doc + x)[|doc|..];
    assert y == (doc + y)[|doc|..];
  }

  /**
   * Two appends onto the same document can be told apart: the resulting
   * markup determines both `<`-free fragments and their order.
   */
  lemma AppendedFragmentsRecoverable(doc: string, a: string, b: string, a': string, b': string)
    requires '<' !in a && '<' !in b && '<' !in a' && '<' !in b'
    requires doc + Block(a) + Block(b) == doc + Block(a') + Block(b')
    ensures a == a' && b == b'
  {
    AppendsInOrder(doc, a, b);
    AppendsInOrder(doc, a', b');
    CancelPrefix(doc, Blocks([a, b]), Blocks([a', b']));
    BlocksInjective([a, b], [a', b']);
    assert [a, b][0] == [a', b'][0] && [a, b][1] == [a', b'][1];
  }

  /** Line breaks are replaced piecewise. */
  lemma {:induction false} BreakLinesAppend(a: string, b: string)
    ensures BreakLines(a + b) == BreakLines(a) + BreakLines(b)
  {
    if a == [] {
      assert a + b == b;
    } else {
      var head := if a[0] == '\n' then BreakTag else [a[0]];
      assert (a + b)[0] == a[0] && (a + b)[1..] == a[1..] + b;
      BreakLinesAppend(a[1..], b);
      assert BreakLines(a + b) == head + (BreakLines(a[1..]) + BreakLines(b));
    }
  }

  /**
   * Nothing but line breaks is escaped: a typed `<br/>` between two lines of
   * text gives the same block as a line break there.
   */
  lemma TypedBreakTagLooksLikeLineBreak(a: string, b: string)
    requires '\n' !in a && '\n' !in b
    ensures Block(a + "\n" + b) == Block(a + BreakTag + b)
  {
    var nb := "\n" + b;
    assert a + "\n" + b == a + nb;
    BreakLinesAppend(a, nb);
    assert nb[0] == '\n' && nb[1..] == b;
    assert BreakLines(nb) == BreakTag + b;
    var rhs := a + BreakTag + b;
    assert rhs == a + (BreakTag + b);
    assert BreakLines(a + nb) == rhs;
    assert '\n' !in BreakTag;
    assert BreakLines(rhs) == rhs;
  }

  /** The markup of two fragments is their two blocks. */
  lemma BlocksPair(x: string, y: string)
    ensures Blocks([x, y]) == Block(x) + Block(y)
  {
    var fs := [x, y];
    assert fs[1..] == [y] && fs[1..][1..] == [];
    assert Blocks(fs[1..]) == Block(y) + Blocks([]);
  }

  /** A fragment holding `</p><p>` gives the same markup as two separate fragments. */
  lemma TypedParagraphTagsLookLikeTwoBlocks(x: string, y: string)
    requires '\n' !in x && '\n' !in y
    ensures Block(x + "</p><p>" + y) == Blocks([x, y])
  {
    var o, c := "<p>", "</p>";
    var m := c + o;
    assert "</p><p>" == m;
    var t := x + m + y;
    BreakLinesAppend(x + m, y);
    BreakLinesAppend(x, m);
    assert BreakLines(m) == m;
    assert BreakLines(t) == t;
    BlocksPair(x, y);
    JoinedBlocks(o, c, x, y);
  }

  /** Two blocks side by side are one block with the closing and opening tags inside. */
  lemma JoinedBlocks(o: string, c: string, x: string, y: string)
    ensures o + (x + (c + o) + y) + c == (o + x + c) + (o + y + c)
  {
  }


}

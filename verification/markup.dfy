/**
 Removal of HTML tags from a highlighted title, as `replace(/<[^>]+>/g, '')`
 does it: scanning left to right, a `<` followed by at least one character
 other than `>` and then a `>` is cut out, and the scan resumes after it.
 */
module Markup {

  import opened Js
  import opened Strings

  /** A piece of text the pattern `<[^>]+>` matches in full. */
  predicate IsTag(t: string) {
    |t| >= 3 && t[0] == '<' && t[|t| - 1] == '>'
    && forall m :: 0 < m < |t| - 1 ==> t[m] != '>'
  }

  /** No piece of `s` matches the pattern. */
  predicate TagFree(s: string) {
    forall i, j :: 0 <= i <= j <= |s| ==> !IsTag(s[i..j])
  }

  /** The global replacement of every match by the empty string. A `<` that
      starts no match (no `>` follows, or `>` follows at once) is kept. */
  function StripTags(s: string): (r: string)
    ensures |r| <= |s|
    ensures forall c :: c in r ==> c in s
    decreases |s|
  {
    if |s| == 0 then ""
    else if s[0] == '<' then
      match IndexOf(s[1..], '>')
      case Some(j) =>
        if j >= 1 then StripTags(s[j + 2..])
        else "<" + StripTags(s[1..])
      case None => "<" + StripTags(s[1..])
    else [s[0]] + StripTags(s[1..])
  }

  /** A string whose first character starts no tag, followed by a tag-free rest, is tag-free. */
  lemma TagFreeCons(c: char, rest: string)
    requires TagFree(rest)
    requires forall j :: 0 <= j <= |rest| + 1 ==> !IsTag(([c] + rest)[..j])
    ensures TagFree([c] + rest)
  {
    var s := [c] + rest;
    forall i, j | 0 <= i <= j <= |s|
      ensures !IsTag(s[i..j])
    {
      if i == 0 {
        assert s[i..j] == s[..j];
      } else {
        assert s[i..j] == rest[i - 1..j - 1];
      }
    }
  }

  /** After the replacement no tag remains: the kept `<` characters are
      either never followed by a `>` or followed by one at once. */
  lemma {:induction false} StripTagsTagFree(s: string)
    ensures TagFree(StripTags(s))
    decreases |s|
  {
    if |s| == 0 {
    } else if s[0] == '<' && IndexOf(s[1..], '>').Some? && IndexOf(s[1..], '>').value >= 1 {
      var j := IndexOf(s[1..], '>').value;
      StripTagsTagFree(s[j + 2..]);
    } else {
      var rest := StripTags(s[1..]);
      StripTagsTagFree(s[1..]);
      var r := [s[0]] + rest;
      assert StripTags(s) == r;
      if s[0] == '<' {
        if IndexOf(s[1..], '>').None? {
          assert '>' !in rest;
        } else {
          assert rest[0] == '>';
        }
      }
      forall j | 0 <= j <= |r|
        ensures !IsTag(r[..j])
      {
        if j >= 3 {
          assert r[..j][j - 1] == rest[j - 2];
          assert r[..j][1] == rest[0];
        }
      }
      TagFreeCons(s[0], rest);
    }
  }

  /** Every piece of a suffix is a piece of the whole, so a suffix of a tag-free string is tag-free. */
  lemma TagFreeTail(s: string)
    requires TagFree(s) && |s| > 0
    ensures TagFree(s[1..])
  {
    forall i, j | 0 <= i <= j <= |s| - 1
      ensures !IsTag(s[1..][i..j])
    {
      assert s[1..][i..j] == s[i + 1..j + 1];
    }
  }

  /** When the replacement cuts a piece from the front, that piece is a tag. */
  lemma TagAtStart(s: string)
    requires |s| > 0
    ensures s[0] == '<' && IndexOf(s[1..], '>').Some? && IndexOf(s[1..], '>').value >= 1
            ==> IsTag(s[0..IndexOf(s[1..], '>').value + 2])
  {
  }

  /** Text without tags passes through unchanged. */
  lemma {:induction false} StripTagsIdentity(s: string)
    requires TagFree(s)
    ensures StripTags(s) == s
    decreases |s|
  {
    if |s| > 0 {
      TagAtStart(s);
      TagFreeTail(s);
      StripTagsIdentity(s[1..]);
      assert s == [s[0]] + s[1..];
    }
  }

  /** Stripping twice is stripping once. */
  lemma StripTagsIdempotent(s: string)
    ensures StripTags(StripTags(s)) == StripTags(s)
  {
    StripTagsTagFree(s);
    StripTagsIdentity(StripTags(s));
  }

  /** Text before the first `<` is kept as it is, and the scan goes on after it. */
  lemma {:induction false} StripTagsKeepsPlainPrefix(a: string, b: string)
    requires '<' !in a
    ensures StripTags(a + b) == a + StripTags(b)
    decreases |a|
  {
    if |a| == 0 {
      assert a + b == b;
    } else {
      var s := a + b;
      assert s[0] == a[0];
      assert s[1..] == a[1..] + b;
      StripTagsKeepsPlainPrefix(a[1..], b);
      assert a == [a[0]] + a[1..];
    }
  }

  /** A tag at the front is cut out whole, and the scan resumes right after it. */
  lemma StripTagsCutsTag(t: string, b: string)
    requires IsTag(t)
    ensures StripTags(t + b) == StripTags(b)
  {
    var s := t + b;
    var inner := t[1..|t| - 1];
    assert '>' !in inner by {
      forall m | 0 <= m < |inner|
        ensures inner[m] != '>'
      {
        assert inner[m] == t[m + 1];
      }
    }
    assert s[1..] == inner + ['>'] + b;
    IndexOfAfterFreePrefix(inner, '>', b);
    assert s[|inner| + 2..] == b;
  }

  /** An empty pair `<>` is no tag: its `<` is kept and the scan goes on at the `>`. */
  lemma StripTagsKeepsEmptyBrackets(b: string)
    requires |b| > 0 && b[0] == '>'
    ensures StripTags("<" + b) == "<" + StripTags(b)
  {
    assert ("<" + b)[1..] == b;
    assert IndexOf(b, '>') == Some(0);
  }

  /** A `<` with no `>` anywhere after it starts no tag and is kept. */
  lemma StripTagsKeepsUnclosedBracket(b: string)
    requires '>' !in b
    ensures StripTags("<" + b) == "<" + StripTags(b)
  {
    assert ("<" + b)[1..] == b;
    assert IndexOf(b, '>') == None;
  }

  /** Text around a tag survives and the tag does not: a tag-free-of-`<`
      prefix is kept, the tag after it is removed, and the rest is scanned on. */
  lemma StripTagsSplice(a: string, t: string, b: string)
    requires '<' !in a && IsTag(t)
    ensures StripTags(a + t + b) == a + StripTags(b)
  {
    assert a + t + b == a + (t + b);
    StripTagsKeepsPlainPrefix(a, t + b);
    StripTagsCutsTag(t, b);
  }

  /** A highlighted word keeps its text and loses its emphasis tags. */
  lemma StripTagsEmphasis(a: string, w: string, b: string)
    requires '<' !in a && '<' !in w && '<' !in b
    ensures StripTags(a + "<em>" + w + "</em>" + b) == a + w + b
  {
    assert IsTag("<em>");
    assert IsTag("</em>");
    assert a + "<em>" + w + "</em>" + b == a + "<em>" + (w + "</em>" + b);
    StripTagsSplice(a, "<em>", w + "</em>" + b);
    assert w + "</em>" + b == w + "</em>" + (b + "");
    StripTagsSplice(w, "</em>", b);
    StripTagsKeepsPlainPrefix(b, "");
    assert b + "" == b;
  }

  /** The two facts a caller of the replacement relies on, in one place. */
  lemma StripTagsFacts(s: string)
    ensures TagFree(StripTags(s))
    ensures TagFree(s) ==> StripTags(s) == s
  {
    StripTagsTagFree(s);
    if TagFree(s) {
      StripTagsIdentity(s);
    }
  }
}

/**
 * The JavaScript string operations the blog admin relies on, over `seq<char>`:
 * `trim`, `indexOf`/`includes`, `replace` with a string pattern, the tag-stripping
 * regular expression `/<[^>]*>/g`, and the `charAt(0).toUpperCase() + slice(1)` idiom.
 */
module Text {
  import opened Wrappers

  // ---------------------------------------------------------------------------
  // trim
  // ---------------------------------------------------------------------------

  /** The characters String.prototype.trim removes: WhiteSpace (including the
      Unicode Zs category) and LineTerminator. */
  predicate IsJsWhitespace(c: char) {
    || c == '\t' || c == '\n' || c == '\U{000B}' || c == '\U{000C}' || c == '\r' || c == ' '
    || c == '\U{00A0}' || c == '\U{1680}' || ('\U{2000}' <= c <= '\U{200A}')
    || c == '\U{2028}' || c == '\U{2029}' || c == '\U{202F}' || c == '\U{205F}'
    || c == '\U{3000}' || c == '\U{FEFF}'
  }

  /** Every character of `s` is whitespace (so `s.trim()` is falsy). */
  predicate IsBlank(s: string) {
    forall i :: 0 <= i < |s| ==> IsJsWhitespace(s[i])
  }

  /** Drops leading whitespace: the result is the longest suffix starting with a non-blank. */
  function TrimStart(s: string): (r: string)
    ensures |r| <= |s| && r == s[|s| - |r|..]
    ensures forall i :: 0 <= i < |s| - |r| ==> IsJsWhitespace(s[i])
    ensures r != [] ==> !IsJsWhitespace(r[0])
  {
    if s != [] && IsJsWhitespace(s[0]) then TrimStart(s[1..]) else s
  }

  /** Drops trailing whitespace: the result is the longest prefix ending with a non-blank. */
  function TrimEnd(s: string): (r: string)
    ensures |r| <= |s| && r == s[..|r|]
    ensures forall i :: |r| <= i < |s| ==> IsJsWhitespace(s[i])
    ensures r != [] ==> !IsJsWhitespace(r[|r| - 1])
  {
    if s != [] && IsJsWhitespace(s[|s| - 1]) then TrimEnd(s[..|s| - 1]) else s
  }

  /** String.prototype.trim: the result is empty exactly when every character is whitespace. */
  function Trim(s: string): (r: string)
    ensures r == [] <==> IsBlank(s)
    ensures r != [] ==> !IsJsWhitespace(r[0]) && !IsJsWhitespace(r[|r| - 1])
  {
    TrimEnd(TrimStart(s))
  }

  // ---------------------------------------------------------------------------
  // indexOf, includes, replace (string pattern)
  // ---------------------------------------------------------------------------

  /** `p` occurs in `s` starting at index `i`. */
  predicate OccursAt(s: string, p: string, i: nat) {
    i + |p| <= |s| && s[i..i + |p|] == p
  }

  /** String.prototype.indexOf: the first index at which `p` occurs in `s`. */
  function IndexOf(s: string, p: string): (r: Option<nat>)
    ensures r.Some? ==> OccursAt(s, p, r.value)
    ensures r.Some? ==> forall j :: 0 <= j < r.value ==> !OccursAt(s, p, j)
    ensures r.None? ==> forall j :: 0 <= j ==> !OccursAt(s, p, j)
  {
    if |s| < |p| then None
    else if s[..|p|] == p then Some(0)
    else
      match IndexOf(s[1..], p)
      case Some(i) =>
        assert forall j :: 1 <= j <= i ==> (OccursAt(s, p, j) <==> OccursAt(s[1..], p, j - 1));
        Some(i + 1)
      case None =>
        assert forall j :: 1 <= j ==> (OccursAt(s, p, j) <==> OccursAt(s[1..], p, j - 1));
        None
  }

  /** String.prototype.includes: `p` occurs somewhere in `s`. */
  function Contains(s: string, p: string): (b: bool)
    ensures b <==> exists i: nat :: OccursAt(s, p, i)
  {
    IndexOf(s, p).Some?
  }

  /** String.prototype.replace with a string pattern: only the first occurrence of `p`
      is replaced by `r`; when `p` does not occur, `s` is returned unchanged. */
  function ReplaceFirst(s: string, p: string, r: string): (t: string)
    ensures IndexOf(s, p).None? ==> t == s
    ensures IndexOf(s, p).Some? ==>
      var i := IndexOf(s, p).value;
      && |t| == |s| - |p| + |r|
      && t[..i] == s[..i]
      && t[i..i + |r|] == r
      && t[i + |r|..] == s[i + |p|..]
  {
    match IndexOf(s, p)
    case None => s
    case Some(i) => s[..i] + r + s[i + |p|..]
  }

  /** A pattern that starts the text is replaced right there, whatever follows it. */
  lemma ReplaceFirstAtStart(p: string, rest: string, r: string)
    ensures ReplaceFirst(p + rest, p, r) == r + rest
  {
    assert OccursAt(p + rest, p, 0);
    var t := ReplaceFirst(p + rest, p, r);
    assert IndexOf(p + rest, p) == Some(0);
    assert t == (p + rest)[..0] + r + (p + rest)[|p|..];
    assert (p + rest)[|p|..] == rest;
  }

  /** If `p` starts with `q`, every occurrence of `p` is an occurrence of `q`: text that
      contains `p` contains `q`. */
  lemma OccurrenceOfExtension(s: string, q: string, p: string)
    requires |q| <= |p| && p[..|q|] == q
    ensures IndexOf(s, p).Some? ==> IndexOf(s, q).Some?
  {
    if IndexOf(s, p).Some? {
      var i := IndexOf(s, p).value;
      assert OccursAt(s, q, i) by {
        assert s[i..i + |q|] == s[i..i + |p|][..|q|];
      }
    }
  }

  // ---------------------------------------------------------------------------
  // content.replace(/<[^>]*>/g, '')
  // ---------------------------------------------------------------------------

  /** The index of the first '>' in `s`. */
  function FirstClose(s: string): (r: Option<nat>)
    ensures r.Some? ==> r.value < |s| && s[r.value] == '>'
    ensures r.Some? ==> forall k :: 0 <= k < r.value ==> s[k] != '>'
    ensures r.None? ==> '>' !in s
  {
    if s == [] then None
    else if s[0] == '>' then Some(0)
    else
      match FirstClose(s[1..])
      case Some(j) => Some(j + 1)
      case None => None
  }

  /** The global regular-expression replacement `/<[^>]*>/g` by the empty string. Scanning
      left to right, a '<' followed later by a '>' starts a match that ends at the first
      such '>' and is removed; a '<' with no '>' after it is kept, and so is every other
      character. */
  function StripTags(s: string): (r: string)
    ensures |r| <= |s|
    ensures '<' !in s ==> r == s
    decreases |s|
  {
    if s == [] then []
    else if s[0] == '<' && FirstClose(s[1..]).Some? then
      StripTags(s[FirstClose(s[1..]).value + 2..])
    else
      [s[0]] + StripTags(s[1..])
  }

  /** `a` is obtained from `b` by deleting characters: order is kept. */
  ghost predicate Subsequence(a: string, b: string)
    decreases |b|
  {
    if a == [] then true
    else if b == [] then false
    else (a[0] == b[0] && Subsequence(a[1..], b[1..])) || Subsequence(a, b[1..])
  }

  lemma {:induction false} SubsequenceOfSuffix(a: string, b: string, k: nat)
    requires k <= |b| && Subsequence(a, b[k..])
    ensures Subsequence(a, b)
    decreases k
  {
    if k > 0 {
      assert b[k..] == b[1..][k - 1..];
      SubsequenceOfSuffix(a, b[1..], k - 1);
    }
  }

  /** Stripping tags only deletes characters: what is left keeps its original order. */
  lemma {:induction false} StripTagsIsSubsequence(s: string)
    ensures Subsequence(StripTags(s), s)
    decreases |s|
  {
    if s == [] {
    } else if s[0] == '<' && FirstClose(s[1..]).Some? {
      var k := FirstClose(s[1..]).value + 2;
      StripTagsIsSubsequence(s[k..]);
      SubsequenceOfSuffix(StripTags(s), s, k);
    } else {
      StripTagsIsSubsequence(s[1..]);
      var r := StripTags(s);
      assert r[0] == s[0] && r[1..] == StripTags(s[1..]);
    }
  }

  /** Every character left by tag stripping was in the input. */
  lemma {:induction false} StripTagsKeepsOnlyInputChars(s: string, c: char)
    requires c in StripTags(s)
    ensures c in s
    decreases |s|
  {
    if s[0] == '<' && FirstClose(s[1..]).Some? {
      var k := FirstClose(s[1..]).value + 2;
      StripTagsKeepsOnlyInputChars(s[k..], c);
    } else if c != s[0] {
      StripTagsKeepsOnlyInputChars(s[1..], c);
    }
  }

  /** No '>' follows a '<' in `s`: `s` holds no complete tag. */
  predicate TagFree(s: string) {
    forall i, j :: 0 <= i < j < |s| && s[i] == '<' ==> s[j] != '>'
  }

  /** After stripping, no '>' occurs after any '<'. */
  lemma {:induction false} StripTagsIsTagFree(s: string)
    ensures TagFree(StripTags(s))
    decreases |s|
  {
    if s == [] {
    } else if s[0] == '<' && FirstClose(s[1..]).Some? {
      StripTagsIsTagFree(s[FirstClose(s[1..]).value + 2..]);
    } else {
      var r := StripTags(s);
      var rest := StripTags(s[1..]);
      StripTagsIsTagFree(s[1..]);
      assert r == [s[0]] + rest;
      if s[0] == '<' {
        forall j | 0 < j < |r| ensures r[j] != '>' {
          if r[j] == '>' {
            assert r[j] == rest[j - 1];
            StripTagsKeepsOnlyInputChars(s[1..], '>');
          }
        }
      }
    }
  }

  /** Text without a complete tag is left as it is. */
  lemma {:induction false} StripTagsOfTagFree(s: string)
    requires TagFree(s)
    ensures StripTags(s) == s
    decreases |s|
  {
    if s != [] {
      if s[0] == '<' {
        assert '>' !in s[1..] by {
          forall j | 0 <= j < |s[1..]| ensures s[1..][j] != '>' {
            assert s[1..][j] == s[j + 1];
          }
        }
      }
      assert TagFree(s[1..]) by {
        forall i, j | 0 <= i < j < |s[1..]| && s[1..][i] == '<' ensures s[1..][j] != '>' {
          assert s[1..][i] == s[i + 1] && s[1..][j] == s[j + 1];
        }
      }
      StripTagsOfTagFree(s[1..]);
    }
  }

  /** Stripping twice is stripping once. */
  lemma StripTagsIdempotent(s: string)
    ensures StripTags(StripTags(s)) == StripTags(s)
  {
    StripTagsIsTagFree(s);
    StripTagsOfTagFree(StripTags(s));
  }

  /** A tag `<t>` (no '>' inside) that follows tag-free text without any '<' is removed
      whole and the text around it is kept. */
  lemma {:induction false} StripTagsRemovesTag(a: string, t: string, b: string)
    requires '<' !in a && '>' !in t
    ensures StripTags(a + ['<'] + t + ['>'] + b) == a + StripTags(b)
    decreases |a|
  {
    var s := a + ['<'] + t + ['>'] + b;
    if a == [] {
      var tail := t + ['>'] + b;
      assert s == ['<'] + tail && s[1..] == tail;
      FirstCloseAfter(t, b);
      assert s[|t| + 2..] == b;
      assert StripTags(s) == StripTags(s[|t| + 2..]);
      assert a + StripTags(b) == StripTags(b);
    } else {
      var tail := a[1..] + ['<'] + t + ['>'] + b;
      assert s[0] == a[0] && s[1..] == tail;
      assert StripTags(s) == [a[0]] + StripTags(tail);
      StripTagsRemovesTag(a[1..], t, b);
      HeadThenTail(a, StripTags(b));
    }
  }

  lemma HeadThenTail(a: string, x: string)
    requires a != []
    ensures [a[0]] + (a[1..] + x) == a + x
  {
    assert a == [a[0]] + a[1..];
  }

  lemma {:induction false} FirstCloseAfter(t: string, b: string)
    requires '>' !in t
    ensures FirstClose(t + ['>'] + b) == Some(|t|)
    decreases |t|
  {
    if t != [] {
      assert (t + ['>'] + b)[1..] == t[1..] + ['>'] + b;
      FirstCloseAfter(t[1..], b);
    }
  }

  // ---------------------------------------------------------------------------
  // s.charAt(0).toUpperCase() + s.slice(1)
  // ---------------------------------------------------------------------------

  /** String.prototype.toUpperCase on one character, for the ASCII letters. */
  function ToUpperAscii(c: char): (u: char)
    ensures 'a' <= c <= 'z' ==> 'A' <= u <= 'Z' && u as int - c as int == 'A' as int - 'a' as int
    ensures !('a' <= c <= 'z') ==> u == c
  {
    if 'a' <= c <= 'z' then (c as int - 'a' as int + 'A' as int) as char else c
  }

  /** Upper-cases the first character and keeps the rest; the empty string stays empty. */
  function Capitalize(s: string): (r: string)
    ensures |r| == |s|
    ensures s != [] ==> r[0] == ToUpperAscii(s[0]) && r[1..] == s[1..]
  {
    if s == [] then [] else [ToUpperAscii(s[0])] + s[1..]
  }
}

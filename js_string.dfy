/**
 * The two JavaScript string operations the form handlers rely on:
 * String.prototype.trim, and the length property, which counts UTF-16
 * code units. The whitespace set is the one ECMAScript uses both for trim
 * and for the regular-expression class \s.
 */
module JsString {

  /** ECMAScript WhiteSpace (tab, vertical tab, form feed, space, no-break
      space, byte-order mark and the Unicode category Zs) and
      LineTerminator (line feed, carriage return, line and paragraph
      separators). */
  predicate IsSpace(c: char)
    ensures IsSpace(c) ==> c as int < 0x1_0000 && c != '@' && c != '.'
  {
    || c == '\t' || c == '\U{000B}' || c == '\U{000C}' || c == ' '
    || c == '\U{00A0}' || c == '\U{FEFF}'
    || c == '\U{1680}' || ('\U{2000}' <= c <= '\U{200A}')
    || c == '\U{202F}' || c == '\U{205F}' || c == '\U{3000}'
    || c == '\n' || c == '\r' || c == '\U{2028}' || c == '\U{2029}'
  }

  predicate AllSpace(s: string) {
    forall k :: 0 <= k < |s| ==> IsSpace(s[k])
  }

  /** No whitespace at either end. */
  predicate IsTrimmed(s: string) {
    s == [] || (!IsSpace(s[0]) && !IsSpace(s[|s| - 1]))
  }

  /** Drops the leading whitespace (see TrimStartSplit for what is dropped). */
  function TrimStart(s: string): (r: string)
    ensures |r| <= |s|
    ensures r == [] || !IsSpace(r[0])
  {
    if s != [] && IsSpace(s[0]) then TrimStart(s[1..]) else s
  }

  /** Drops the trailing whitespace (see TrimEndSplit for what is dropped). */
  function TrimEnd(s: string): (r: string)
    ensures |r| <= |s|
    ensures r == [] || !IsSpace(r[|r| - 1])
    ensures r != [] ==> r[0] == s[0]
  {
    if s != [] && IsSpace(s[|s| - 1]) then TrimEnd(s[..|s| - 1]) else s
  }

  /** String.prototype.trim. */
  function Trim(s: string): (r: string)
    ensures IsTrimmed(r)
    ensures |r| <= |s|
  {
    TrimEnd(TrimStart(s))
  }

  /** What TrimStart drops is a whitespace prefix. */
  lemma {:induction false} TrimStartSplit(s: string) returns (pre: string)
    ensures AllSpace(pre) && s == pre + TrimStart(s)
  {
    if s != [] && IsSpace(s[0]) {
      var rest := TrimStartSplit(s[1..]);
      pre := [s[0]] + rest;
      assert s == [s[0]] + s[1..];
    } else {
      pre := [];
    }
  }

  /** What TrimEnd drops is a whitespace suffix. */
  lemma {:induction false} TrimEndSplit(s: string) returns (post: string)
    ensures AllSpace(post) && s == TrimEnd(s) + post
  {
    if s != [] && IsSpace(s[|s| - 1]) {
      var rest := TrimEndSplit(s[..|s| - 1]);
      post := rest + [s[|s| - 1]];
      assert s == s[..|s| - 1] + [s[|s| - 1]];
    } else {
      post := [];
    }
  }

  /** s splits as whitespace, then Trim(s), then whitespace. */
  lemma TrimSplit(s: string) returns (pre: string, post: string)
    ensures AllSpace(pre) && AllSpace(post)
    ensures s == pre + Trim(s) + post
  {
    pre := TrimStartSplit(s);
    post := TrimEndSplit(TrimStart(s));
  }

  /** Trimming leaves nothing exactly when the string is all whitespace. */
  lemma TrimEmptyIffAllSpace(s: string)
    ensures Trim(s) == [] <==> AllSpace(s)
  {
    var pre, post := TrimSplit(s);
    if AllSpace(s) {
      TrimPadded(s, [], []);
      assert s + [] + [] == s;
    }
  }

  lemma {:induction false} TrimStartSkipsSpace(pre: string, s: string)
    requires AllSpace(pre)
    ensures TrimStart(pre + s) == TrimStart(s)
  {
    if pre != [] {
      assert (pre + s)[0] == pre[0];
      assert (pre + s)[1..] == pre[1..] + s;
      TrimStartSkipsSpace(pre[1..], s);
    } else {
      assert pre + s == s;
    }
  }

  lemma {:induction false} TrimEndSkipsSpace(s: string, post: string)
    requires AllSpace(post)
    ensures TrimEnd(s + post) == TrimEnd(s)
  {
    if post != [] {
      assert (s + post)[|s + post| - 1] == post[|post| - 1];
      assert (s + post)[..|s + post| - 1] == s + post[..|post| - 1];
      TrimEndSkipsSpace(s, post[..|post| - 1]);
    } else {
      assert s + post == s;
    }
  }

  lemma {:induction false} TrimStartKeepsTail(s: string, post: string)
    requires !AllSpace(s)
    ensures TrimStart(s + post) == TrimStart(s) + post
  {
    if IsSpace(s[0]) {
      assert (s + post)[1..] == s[1..] + post;
      TrimStartKeepsTail(s[1..], post);
    }
  }

  /** Whitespace added around a string never survives trimming. */
  lemma TrimPadded(pre: string, s: string, post: string)
    requires AllSpace(pre) && AllSpace(post)
    ensures Trim(pre + s + post) == Trim(s)
  {
    assert pre + s + post == pre + (s + post);
    TrimStartSkipsSpace(pre, s + post);
    if AllSpace(s) {
      assert AllSpace(s + post);
      TrimStartSkipsSpace(s + post, []);
      assert s + post + [] == s + post;
      TrimStartSkipsSpace(s, []);
      assert s + [] == s;
    } else {
      TrimStartKeepsTail(s, post);
      TrimEndSkipsSpace(TrimStart(s), post);
    }
  }

  /** A string without surrounding whitespace is its own trim. */
  lemma TrimOfTrimmed(s: string)
    requires IsTrimmed(s)
    ensures Trim(s) == s
  {
  }

  lemma TrimIdempotent(s: string)
    ensures Trim(Trim(s)) == Trim(s)
  {
    TrimOfTrimmed(Trim(s));
  }

  /** Trim(s) is the only whitespace-free-ended string that s surrounds with
      whitespace. */
  lemma TrimUnique(s: string, pre: string, t: string, post: string)
    requires AllSpace(pre) && AllSpace(post) && IsTrimmed(t)
    requires s == pre + t + post
    ensures Trim(s) == t
  {
    TrimPadded(pre, t, post);
    TrimOfTrimmed(t);
  }

  /** The value of a JavaScript string's length property: the number of
      UTF-16 code units, two for each code point above U+FFFF. */
  function Utf16Length(s: string): (n: nat)
    ensures |s| <= n <= 2 * |s|
  {
    if s == [] then 0
    else (if s[0] as int < 0x1_0000 then 1 else 2) + Utf16Length(s[1..])
  }

  /** Below U+10000 the length property counts code points. */
  lemma {:induction false} Utf16LengthOfBmp(s: string)
    requires forall k :: 0 <= k < |s| ==> s[k] as int < 0x1_0000
    ensures Utf16Length(s) == |s|
  {
    if s != [] {
      Utf16LengthOfBmp(s[1..]);
    }
  }
}

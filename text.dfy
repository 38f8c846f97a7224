/**
  The JavaScript string operations the extension relies on, over `seq<char>`:
  `toLowerCase` (restricted to ASCII letters), `trim`, `startsWith`, `endsWith`,
  `includes`, and the anchored replacement `replace(/^www\./, "")`.
 */
module Text {

  type String = seq<char>

  /** The literal the regular expression `/^www\./` matches at the start of a host. */
  const WwwPrefix: String := "www."

  predicate IsAsciiUpper(c: char) {
    'A' <= c <= 'Z'
  }

  /** No character of `s` is an upper-case ASCII letter. */
  predicate NoAsciiUpper(s: String) {
    forall i :: 0 <= i < |s| ==> !IsAsciiUpper(s[i])
  }

  /** `toLowerCase` on one character, for the ASCII range. */
  function LowerChar(c: char): (d: char)
    ensures !IsAsciiUpper(d)
    ensures IsAsciiUpper(c) ==> d as int == c as int + 32
    ensures !IsAsciiUpper(c) ==> d == c
  {
    if IsAsciiUpper(c) then (c as int + 32) as char else c
  }

  /** `String.prototype.toLowerCase`, for the ASCII range. */
  function ToLower(s: String): (r: String)
    ensures |r| == |s|
    ensures forall i :: 0 <= i < |s| ==> r[i] == LowerChar(s[i])
    ensures NoAsciiUpper(r)
  {
    seq(|s|, i requires 0 <= i < |s| => LowerChar(s[i]))
  }

  lemma ToLowerAppend(a: String, b: String)
    ensures ToLower(a + b) == ToLower(a) + ToLower(b)
  {
    assert forall i :: 0 <= i < |a + b| ==> ToLower(a + b)[i] == (ToLower(a) + ToLower(b))[i];
  }

  lemma NoAsciiUpperAppend(a: String, b: String)
    requires NoAsciiUpper(a) && NoAsciiUpper(b)
    ensures NoAsciiUpper(a + b)
  {
    assert forall i :: 0 <= i < |a + b| ==> (a + b)[i] == if i < |a| then a[i] else b[i - |a|];
  }

  /** Lowering a string that has no upper-case letter leaves it alone, so lowering twice is lowering once. */
  lemma ToLowerOfLower(s: String)
    requires NoAsciiUpper(s)
    ensures ToLower(s) == s
  {
    assert forall i :: 0 <= i < |s| ==> ToLower(s)[i] == s[i];
  }

  /**
    The characters `String.prototype.trim` removes: ECMAScript's WhiteSpace
    (tab, vertical tab, form feed, ZWNBSP and every Space_Separator) and
    LineTerminator (LF, CR, LS, PS).
   */
  predicate IsJsWhitespace(c: char) {
    c == '\t' || c == '\n' || c == '\U{000B}' || c == '\U{000C}' || c == '\r' ||
    c == ' ' || c == '\U{00A0}' || c == '\U{1680}' || ('\U{2000}' <= c <= '\U{200A}') ||
    c == '\U{2028}' || c == '\U{2029}' || c == '\U{202F}' || c == '\U{205F}' ||
    c == '\U{3000}' || c == '\U{FEFF}'
  }

  /** Removes leading whitespace: the result is a suffix of `s`, all that was removed is whitespace, and it starts with none. */
  function TrimStart(s: String): (r: String)
    ensures |r| <= |s| && r == s[|s| - |r|..]
    ensures forall k :: 0 <= k < |s| - |r| ==> IsJsWhitespace(s[k])
    ensures r != [] ==> !IsJsWhitespace(r[0])
  {
    if s != [] && IsJsWhitespace(s[0]) then TrimStart(s[1..]) else s
  }

  /** Removes trailing whitespace: the result is a prefix of `s`, all that was removed is whitespace, and it ends with none. */
  function TrimEnd(s: String): (r: String)
    ensures |r| <= |s| && r == s[..|r|]
    ensures forall k :: |r| <= k < |s| ==> IsJsWhitespace(s[k])
    ensures r != [] ==> !IsJsWhitespace(r[|r| - 1])
  {
    if s != [] && IsJsWhitespace(s[|s| - 1]) then TrimEnd(s[..|s| - 1]) else s
  }

  /**
    `String.prototype.trim`: the result is the slice `s[i..j]` where everything
    before `i` and from `j` on is whitespace, and the slice neither starts nor
    ends with whitespace.
   */
  function Trim(s: String): (r: String)
    ensures exists i, j ::
              && 0 <= i <= j <= |s| && r == s[i..j]
              && (forall k :: 0 <= k < i ==> IsJsWhitespace(s[k]))
              && (forall k :: j <= k < |s| ==> IsJsWhitespace(s[k]))
    ensures r != [] ==> !IsJsWhitespace(r[0]) && !IsJsWhitespace(r[|r| - 1])
  {
    var t := TrimStart(s);
    var r := TrimEnd(t);
    var i, j := |s| - |t|, |s| - |t| + |r|;
    assert r == s[i..j];
    r
  }

  /** A string trims to nothing exactly when every character of it is whitespace. */
  lemma TrimEmptyIff(s: String)
    ensures Trim(s) == [] <==> forall k :: 0 <= k < |s| ==> IsJsWhitespace(s[k])
  {
    if Trim(s) != [] {
      var i, j :| 0 <= i <= j <= |s| && Trim(s) == s[i..j];
      assert s[i] == Trim(s)[0];
    }
  }

  predicate StartsWith(s: String, prefix: String) {
    |prefix| <= |s| && s[..|prefix|] == prefix
  }

  predicate EndsWith(s: String, suffix: String) {
    |suffix| <= |s| && s[|s| - |suffix|..] == suffix
  }

  /** `String.prototype.includes`: `part` occurs in `s` at some position `i`. */
  predicate Includes(s: String, part: String) {
    StartsWith(s, part) || (s != [] && Includes(s[1..], part))
  }

  /** `part` occurs in `s` at position `i`. */
  predicate At(s: String, part: String, i: nat) {
    i + |part| <= |s| && s[i..i + |part|] == part
  }

  /** `part` found at some position `i` of `s` means `s` includes it. */
  lemma {:induction false} IncludesAt(s: String, part: String, i: nat)
    requires At(s, part, i)
    ensures Includes(s, part)
  {
    if i > 0 {
      assert s[1..][i - 1..i - 1 + |part|] == part;
      IncludesAt(s[1..], part, i - 1);
    }
  }

  /** Conversely, when `s` includes `part` it is found at some position. */
  lemma {:induction false} IncludesFound(s: String, part: String)
    requires Includes(s, part)
    ensures exists i: nat :: At(s, part, i)
  {
    if StartsWith(s, part) {
      assert At(s, part, 0);
    } else {
      IncludesFound(s[1..], part);
      var i: nat :| At(s[1..], part, i);
      assert s[i + 1..i + 1 + |part|] == s[1..][i..i + |part|];
      assert At(s, part, i + 1);
    }
  }

  /**
    `replace(/^www\./, "")`: removes one leading, lower-case `"www."` and
    nothing else. The match is case-sensitive.
   */
  function StripWww(s: String): (r: String)
    ensures s == r || s == WwwPrefix + r
    ensures StartsWith(s, WwwPrefix) <==> s == WwwPrefix + r
  {
    if StartsWith(s, WwwPrefix) then s[|WwwPrefix|..] else s
  }

  /** A difference at position `k` of the prefix rules it out. */
  lemma NotStartsWithAt(s: String, prefix: String, k: nat)
    requires k < |prefix| && k < |s| && s[k] != prefix[k]
    ensures !StartsWith(s, prefix)
  {
    if |prefix| <= |s| {
      assert s[..|prefix|][k] != prefix[k];
    }
  }

  lemma EndsWithAppend(a: String, b: String)
    ensures EndsWith(a + b, b)
  {
    assert (a + b)[|a + b| - |b|..] == b;
  }

  /** Lowercasing `p + "." + h` lowercases each side and keeps the dot. */
  lemma ToLowerDotJoin(p: String, h: String)
    ensures ToLower(p + "." + h) == ToLower(p) + ("." + ToLower(h))
  {
    ToLowerAppend(p + ".", h);
    ToLowerAppend(p, ".");
    ToLowerOfLower(".");
  }

  /** Suffixes chain: a suffix of a suffix is a suffix. */
  lemma EndsWithTrans(s: String, t: String, u: String)
    requires EndsWith(s, t) && EndsWith(t, u)
    ensures EndsWith(s, u)
  {
    assert s[|s| - |u|..] == t[|t| - |u|..];
  }

  /** Prepending text keeps a suffix. */
  lemma EndsWithPrepend(p: String, s: String, u: String)
    requires EndsWith(s, u)
    ensures EndsWith(p + s, u)
  {
    assert (p + s)[|p + s| - |u|..] == s[|s| - |u|..];
  }
}

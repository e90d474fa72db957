/**
 * The .NET string operations the controllers rely on: `char.IsWhiteSpace`,
 * `string.IsNullOrWhiteSpace` and `string.Trim()`.
 * A `null` string is not represented: every call site in the controllers sends
 * `null` down the same branch as the empty string.
 */
module Text {

  /** The characters `char.IsWhiteSpace` accepts: the Unicode White_Space set
      (separators, U+0009..U+000D and U+0085). */
  predicate IsWhiteSpace(c: char)
  {
    || '\t' <= c <= '\r'
    || c == ' '
    || c == '\U{85}'
    || c == '\U{A0}'
    || c == '\U{1680}'
    || '\U{2000}' <= c <= '\U{200A}'
    || c == '\U{2028}'
    || c == '\U{2029}'
    || c == '\U{202F}'
    || c == '\U{205F}'
    || c == '\U{3000}'
  }

  /** `string.IsNullOrWhiteSpace`: empty, or nothing but white space. */
  predicate IsBlank(s: string)
  {
    forall i :: 0 <= i < |s| ==> IsWhiteSpace(s[i])
  }

  /** `string.TrimStart()`: drops the leading white space, nothing else. */
  function TrimStart(s: string): (r: string)
    ensures |r| <= |s| && r == s[|s| - |r|..]
    ensures forall i :: 0 <= i < |s| - |r| ==> IsWhiteSpace(s[i])
    ensures r != [] ==> !IsWhiteSpace(r[0])
  {
    if s != [] && IsWhiteSpace(s[0]) then TrimStart(s[1..]) else s
  }

  /** `string.TrimEnd()`: drops the trailing white space, nothing else. */
  function TrimEnd(s: string): (r: string)
    ensures |r| <= |s| && r == s[..|r|]
    ensures forall i :: |r| <= i < |s| ==> IsWhiteSpace(s[i])
    ensures r != [] ==> !IsWhiteSpace(r[|r| - 1])
  {
    if s != [] && IsWhiteSpace(s[|s| - 1]) then TrimEnd(s[..|s| - 1]) else s
  }

  /** `string.Trim()`: drops the leading and the trailing white space; what is
      left neither starts nor ends with white space. */
  function Trim(s: string): (r: string)
    ensures |r| <= |s|
    ensures r != [] ==> !IsWhiteSpace(r[0]) && !IsWhiteSpace(r[|r| - 1])
  {
    TrimEnd(TrimStart(s))
  }

  /** What `TrimStart` drops is a blank prefix. */
  lemma TrimStartDropsBlank(s: string)
    ensures IsBlank(s[..|s| - |TrimStart(s)|])
  {
    var n := |s| - |TrimStart(s)|;
    forall k | 0 <= k < n ensures IsWhiteSpace(s[..n][k]) {
      assert s[..n][k] == s[k];
    }
  }

  /** What `TrimEnd` drops is a blank suffix. */
  lemma TrimEndDropsBlank(t: string)
    ensures IsBlank(t[|TrimEnd(t)|..])
  {
    var m := |TrimEnd(t)|;
    forall k | 0 <= k < |t| - m ensures IsWhiteSpace(t[m..][k]) {
      assert t[m..][k] == t[m + k];
    }
  }

  /** What `Trim` keeps is one contiguous slice of its input, and what it drops
      on either side is all white space. */
  lemma TrimIsSlice(s: string)
    ensures exists i, j :: 0 <= i <= j <= |s| && Trim(s) == s[i..j]
                           && IsBlank(s[..i]) && IsBlank(s[j..])
  {
    var t := TrimStart(s);
    var r := TrimEnd(t);
    var i, j := |s| - |t|, |s| - |t| + |r|;
    assert r == s[i..j] by {
      assert t == s[i..];
      assert r == t[..|r|];
    }
    assert IsBlank(s[..i]) by {
      TrimStartDropsBlank(s);
    }
    assert IsBlank(s[j..]) by {
      TrimEndDropsBlank(t);
      assert s[j..] == t[|r|..];
    }
  }

  /** Trimming leaves nothing exactly when the string is blank: the
      `IsNullOrWhiteSpace` guard is what keeps trimmed names non-empty. */
  lemma TrimEmptyIffBlank(s: string)
    ensures Trim(s) == [] <==> IsBlank(s)
  {
    var r := Trim(s);
    TrimIsSlice(s);
    var i, j :| 0 <= i <= j <= |s| && r == s[i..j] && IsBlank(s[..i]) && IsBlank(s[j..]);
    if r == [] {
      assert i == j;
      forall k | 0 <= k < |s| ensures IsWhiteSpace(s[k]) {
        if k < i { assert s[k] == s[..i][k]; } else { assert s[k] == s[j..][k - j]; }
      }
    } else {
      assert s[i] == r[0];
    }
  }

  /** Trimming twice is trimming once: a stored (trimmed) name is a fixed point. */
  lemma TrimIdempotent(s: string)
    ensures Trim(Trim(s)) == Trim(s)
  {
    var r := Trim(s);
    if r != [] {
      assert TrimStart(r) == r;
      assert TrimEnd(r) == r;
    }
  }
}

/** JavaScript string helpers the components rely on: `String.prototype.trim` and the
    `value || fallback` idiom on optional strings. */
module Text {
  import opened Wrappers

  /** The characters `trim` removes: the WhiteSpace and LineTerminator code points of
      sections 12.2 and 12.3 of ECMA-262 (tab, line feed, vertical tab, form feed,
      carriage return, space, no-break space, the Unicode space separators, the line and
      paragraph separators and the byte order mark). */
  predicate IsSpace(c: char) {
    var n := c as int;
    n == 0x09 || n == 0x0A || n == 0x0B || n == 0x0C || n == 0x0D || n == 0x20
    || n == 0xA0 || n == 0x1680 || (0x2000 <= n <= 0x200A) || n == 0x2028 || n == 0x2029
    || n == 0x202F || n == 0x205F || n == 0x3000 || n == 0xFEFF
  }

  predicate AllSpace(s: string) {
    forall i :: 0 <= i < |s| ==> IsSpace(s[i])
  }

  /** Length of the run of white space at the start of `s`. */
  function LeadingSpace(s: string): (k: nat)
    ensures k <= |s|
    ensures forall i :: 0 <= i < k ==> IsSpace(s[i])
    ensures k < |s| ==> !IsSpace(s[k])
  {
    if s != [] && IsSpace(s[0]) then
      var k := 1 + LeadingSpace(s[1..]);
      assert forall i :: 1 <= i < k ==> s[i] == s[1..][i - 1];
      k
    else 0
  }

  /** Length of the run of white space at the end of `s`. */
  function TrailingSpace(s: string): (k: nat)
    ensures k <= |s|
    ensures forall i :: |s| - k <= i < |s| ==> IsSpace(s[i])
    ensures k < |s| ==> !IsSpace(s[|s| - k - 1])
  {
    if s != [] && IsSpace(s[|s| - 1]) then
      var t := s[..|s| - 1];
      var k := 1 + TrailingSpace(t);
      assert forall i :: |s| - k <= i < |s| - 1 ==> s[i] == t[i];
      k
    else 0
  }

  /** `s.trim()`: `s` without its leading and trailing white space. */
  function Trim(s: string): (r: string)
    ensures |r| <= |s|
    ensures r != [] ==> !IsSpace(r[0]) && !IsSpace(r[|r| - 1])
    ensures exists a :: Strips(s, a, r)
  {
    var a := LeadingSpace(s);
    var t := s[a..];
    var r := t[..|t| - TrailingSpace(t)];
    StripsTrim(s, a, t, r);
    r
  }

  /** `r` is the part of `s` that starts at `a`, and only white space precedes and follows it. */
  ghost predicate Strips(s: string, a: nat, r: string) {
    && a + |r| <= |s|
    && r == s[a..a + |r|]
    && AllSpace(s[..a])
    && AllSpace(s[a + |r|..])
  }

  lemma StripsTrim(s: string, a: nat, t: string, r: string)
    requires a == LeadingSpace(s) && t == s[a..] && r == t[..|t| - TrailingSpace(t)]
    ensures Strips(s, a, r)
    ensures r != [] ==> !IsSpace(r[0]) && !IsSpace(r[|r| - 1])
  {
    var b := TrailingSpace(t);
    var head, tail := s[..a], s[a + |r|..];
    assert r == s[a..a + |r|];
    assert r != [] ==> r[0] == s[a];
    forall i | 0 <= i < |head| ensures IsSpace(head[i]) {
      assert head[i] == s[i];
    }
    forall i | 0 <= i < |tail| ensures IsSpace(tail[i]) {
      assert tail[i] == t[|t| - b + i];
    }
  }

  /** The trim is empty exactly when the whole string is white space. */
  lemma TrimEmptyIff(s: string)
    ensures Trim(s) == [] <==> AllSpace(s)
  {
    var a := LeadingSpace(s);
    var t := s[a..];
    var b := TrailingSpace(t);
    if Trim(s) == [] {
      assert a == |s|;
    } else {
      assert !IsSpace(Trim(s)[0]);
    }
  }

  /** `value || fallback` for an optional string: null, undefined and "" are falsy. */
  function OrElse(value: Option<string>, fallback: string): (r: string)
    ensures value.Some? && value.value != "" ==> r == value.value
    ensures value.None? || value.value == "" ==> r == fallback
  {
    if value.Some? && value.value != "" then value.value else fallback
  }

  /** `value || null`: an empty string becomes null. */
  function NullIfEmpty(value: Option<string>): (r: Option<string>)
    ensures r.Some? <==> value.Some? && value.value != ""
    ensures r.Some? ==> r == value
  {
    if value.Some? && value.value != "" then value else None
  }
}

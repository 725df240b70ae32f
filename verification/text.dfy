/** Python's `str.strip()` with no argument: removes leading and trailing
    whitespace, where whitespace is what `str.isspace` accepts. */
module Text {

  /** The code points Python treats as whitespace. */
  predicate IsSpace(c: char) {
    var n := c as int;
    || n == 0x20
    || 0x09 <= n <= 0x0D
    || 0x1C <= n <= 0x1F
    || n == 0x85 || n == 0xA0 || n == 0x1680
    || 0x2000 <= n <= 0x200A
    || n == 0x2028 || n == 0x2029 || n == 0x202F || n == 0x205F || n == 0x3000
  }

  predicate AllSpace(s: string) {
    forall i :: 0 <= i < |s| ==> IsSpace(s[i])
  }

  /** True when `s` is empty or starts and ends with a non-space character. */
  predicate Trimmed(s: string) {
    s == [] || (!IsSpace(s[0]) && !IsSpace(s[|s| - 1]))
  }

  /** Number of whitespace characters at the front of `s`. */
  function LeadingSpaces(s: string): (n: nat)
    ensures n <= |s|
    ensures forall i :: 0 <= i < n ==> IsSpace(s[i])
    ensures n < |s| ==> !IsSpace(s[n])
  {
    if |s| > 0 && IsSpace(s[0]) then
      1 + LeadingSpaces(s[1..])
    else 0
  }

  /** Number of whitespace characters at the end of `s`. */
  function TrailingSpaces(s: string): (n: nat)
    ensures n <= |s|
    ensures forall i :: |s| - n <= i < |s| ==> IsSpace(s[i])
    ensures n < |s| ==> !IsSpace(s[|s| - n - 1])
  {
    if |s| > 0 && IsSpace(s[|s| - 1]) then
      1 + TrailingSpaces(s[..|s| - 1])
    else 0
  }

  /** `s` without its leading and trailing whitespace. */
  function Strip(s: string): (r: string)
    ensures |r| <= |s|
    ensures Trimmed(r)
    ensures r == [] <==> AllSpace(s)
  {
    var l := LeadingSpaces(s);
    var t := s[l..];
    var r := t[..|t| - TrailingSpaces(t)];
    assert l < |s| ==> r != [] by {
      if l < |s| { assert t[0] == s[l]; }
    }
    r
  }

  /** The leading-space count of `a + t + b` is exactly `|a|` when `a` is
      all whitespace and `t` starts with a non-space character. */
  lemma {:induction false} LeadingOfPadded(a: string, t: string, b: string)
    requires AllSpace(a) && t != [] && !IsSpace(t[0])
    ensures LeadingSpaces(a + t + b) == |a|
    decreases |a|
  {
    var s := a + t + b;
    if a == [] {
      assert s[0] == t[0];
    } else {
      assert s[0] == a[0];
      assert s[1..] == a[1..] + t + b;
      LeadingOfPadded(a[1..], t, b);
    }
  }

  /** The trailing-space count of `a + t + b` is exactly `|b|` when `b` is
      all whitespace and `t` ends with a non-space character. */
  lemma {:induction false} TrailingOfPadded(a: string, t: string, b: string)
    requires AllSpace(b) && t != [] && !IsSpace(t[|t| - 1])
    ensures TrailingSpaces(a + t + b) == |b|
    decreases |b|
  {
    var s := a + t + b;
    if b == [] {
      assert s[|s| - 1] == t[|t| - 1];
    } else {
      assert s[|s| - 1] == b[|b| - 1];
      assert s[..|s| - 1] == a + t + b[..|b| - 1];
      TrailingOfPadded(a, t, b[..|b| - 1]);
    }
  }

  /** Strip recovers any trimmed text from whitespace padding on both sides:
      together with Strip's own contract this pins its result down exactly. */
  lemma {:induction false} StripPadded(a: string, t: string, b: string)
    requires AllSpace(a) && AllSpace(b) && Trimmed(t)
    ensures Strip(a + t + b) == t
  {
    var s := a + t + b;
    if t == [] {
      assert s == a + b;
      assert AllSpace(s) by {
        forall i | 0 <= i < |s| ensures IsSpace(s[i]) {
          if i < |a| { assert s[i] == a[i]; } else { assert s[i] == b[i - |a|]; }
        }
      }
    } else {
      LeadingOfPadded(a, t, b);
      var u := s[|a|..];
      assert u == t + b;
      LeadingOfPadded([], t, b);
      assert [] + t + b == u;
      TrailingOfPadded([], t, b);
      assert u[..|u| - |b|] == t;
    }
  }

  /** Stripping twice is stripping once. */
  lemma StripIdempotent(s: string)
    ensures Strip(Strip(s)) == Strip(s)
  {
    var r := Strip(s);
    StripPadded([], r, []);
    assert [] + r + [] == r;
  }
}

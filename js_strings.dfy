/**
 * The parts of JavaScript's value and string semantics that the provider relies on:
 * truthiness, `String(v)`, `String.prototype.trim`, the regular-expression classes
 * `\s` and `\d`, the `.` that stops at line terminators, and case folding under the
 * `i` flag.
 */
module JsStrings {
  import opened Wrappers

  /** A JavaScript value as far as the provider inspects it. */
  datatype JsValue = Undef | JsNull | Str(s: string) | Num(n: int)

  /** JavaScript truthiness: `undefined`, `null`, `''` and `0` are falsy. */
  predicate Truthy(v: JsValue) {
    match v
    case Undef => false
    case JsNull => false
    case Str(s) => s != ""
    case Num(n) => n != 0
  }

  /** The ECMAScript LineTerminator characters: the ones `.` does not match. */
  predicate IsLineTerminator(c: char) {
    c == '\n' || c == '\r' || c == '\U{2028}' || c == '\U{2029}'
  }

  /** The class `\s`, which is also the set of characters `trim` removes (WhiteSpace and LineTerminator). */
  predicate IsSpace(c: char) {
    IsLineTerminator(c) || c == '\t' || c == '\U{B}' || c == '\U{C}' || c == ' '
    || c == '\U{A0}' || c == '\U{1680}' || ('\U{2000}' <= c <= '\U{200A}')
    || c == '\U{202F}' || c == '\U{205F}' || c == '\U{3000}' || c == '\U{FEFF}'
  }

  /** The class `\d`. */
  predicate IsDigit(c: char) {
    '0' <= c <= '9'
  }

  /**
   * The canonical form two characters share when a case-insensitive pattern matches one
   * against the other: upper case for ASCII and Latin-1 letters.
   */
  function Canon(c: char): (u: char)
    ensures 'A' <= u <= 'Z' ==> 'A' <= c <= 'Z' || 'a' <= c <= 'z'
  {
    if 'a' <= c <= 'z' then (c as int - 32) as char
    else if '\U{E0}' <= c <= '\U{FE}' && c != '\U{F7}' then (c as int - 32) as char
    else c
  }

  predicate AllSpace(s: string) {
    forall i | 0 <= i < |s| :: IsSpace(s[i])
  }

  /** Neither end of `s` is white space. */
  predicate IsTrimmed(s: string) {
    s == [] || (!IsSpace(s[0]) && !IsSpace(s[|s| - 1]))
  }

  /** `r` is a contiguous piece of `s`. */
  predicate IsFactor(r: string, s: string) {
    exists a, b | 0 <= a <= b <= |s| :: r == s[a..b]
  }

  lemma FactorTransitive(r: string, m: string, s: string)
    requires IsFactor(r, m) && IsFactor(m, s)
    ensures IsFactor(r, s)
  {
    var a, b :| 0 <= a <= b <= |m| && r == m[a..b];
    var c, d :| 0 <= c <= d <= |s| && m == s[c..d];
    var t := s[c + a..c + b];
    assert |t| == |r|;
    forall i | 0 <= i < |r|
      ensures r[i] == t[i]
    {
      calc {
        r[i];
        m[a + i];
        s[c + a + i];
      }
    }
    assert r == t;
  }

  /** A piece is no longer than the whole. */
  lemma FactorShorter(r: string, s: string)
    requires IsFactor(r, s)
    ensures |r| <= |s|
  {
    var a, b :| 0 <= a <= b <= |s| && r == s[a..b];
  }

  /** A piece of a string without `c` has no `c` either. */
  lemma FactorAvoids(r: string, s: string, c: char)
    requires IsFactor(r, s) && c !in s
    ensures c !in r
  {
    var a, b :| 0 <= a <= b <= |s| && r == s[a..b];
    forall x | 0 <= x < |r| ensures r[x] != c { assert r[x] == s[a + x]; }
  }

  /** The greedy `\s*` from `i`: the end of the run of white space starting there. */
  function SkipSpaces(s: string, i: nat): (j: nat)
    requires i <= |s|
    ensures i <= j <= |s|
    ensures forall k | i <= k < j :: IsSpace(s[k])
    ensures j == |s| || !IsSpace(s[j])
    decreases |s| - i
  {
    if i < |s| && IsSpace(s[i]) then SkipSpaces(s, i + 1) else i
  }

  /** The greedy `\d*` from `i`: the end of the run of digits starting there. */
  function SkipDigits(s: string, i: nat): (j: nat)
    requires i <= |s|
    ensures i <= j <= |s|
    ensures forall k | i <= k < j :: IsDigit(s[k])
    ensures j == |s| || !IsDigit(s[j])
    decreases |s| - i
  {
    if i < |s| && IsDigit(s[i]) then SkipDigits(s, i + 1) else i
  }

  /** The start of the run of white space that ends at `j`, not going below `lo`. */
  function SpacesBefore(s: string, lo: nat, j: nat): (k: nat)
    requires lo <= j <= |s|
    ensures lo <= k <= j
    ensures forall m | k <= m < j :: IsSpace(s[m])
    ensures k == lo || !IsSpace(s[k - 1])
    decreases j
  {
    if lo < j && IsSpace(s[j - 1]) then SpacesBefore(s, lo, j - 1) else j
  }

  /** `String.prototype.trim`. */
  function Trim(s: string): (r: string)
    ensures IsTrimmed(r)
    ensures IsFactor(r, s)
  {
    var a := SkipSpaces(s, 0);
    var b := SpacesBefore(s, a, |s|);
    s[a..b]
  }

  /** `trim` removes only white space, from the two ends. */
  lemma TrimStripsSpace(s: string)
    ensures exists a, b | 0 <= a <= b <= |s| ::
      Trim(s) == s[a..b] && AllSpace(s[..a]) && AllSpace(s[b..])
  {
    var a := SkipSpaces(s, 0);
    var b := SpacesBefore(s, a, |s|);
    assert Trim(s) == s[a..b] && AllSpace(s[..a]) && AllSpace(s[b..]);
  }

  /** Conversely, surrounding white space is all that `trim` removes from a trimmed string. */
  lemma TrimUnique(p: string, r: string, q: string)
    requires AllSpace(p) && AllSpace(q) && IsTrimmed(r)
    ensures Trim(p + r + q) == r
  {
    var s := p + r + q;
    var a := SkipSpaces(s, 0);
    if r == [] {
      assert AllSpace(s) by {
        forall i | 0 <= i < |s| ensures IsSpace(s[i]) {
          if i < |p| { assert s[i] == p[i]; } else { assert s[i] == q[i - |p|]; }
        }
      }
      assert a == |s|;
    } else {
      assert s[|p|] == r[0];
      assert a == |p|;
      var b := SpacesBefore(s, a, |s|);
      var e := |p| + |r|;
      assert s[e - 1] == r[|r| - 1];
      assert forall i | e <= i < |s| :: s[i] == q[i - e];
      assert s[a..b] == r;
    }
  }

  /** A trimmed string is its own `trim`. */
  lemma TrimOfTrimmed(s: string)
    requires IsTrimmed(s)
    ensures Trim(s) == s
  {
    assert [] + s + [] == s;
    TrimUnique([], s, []);
  }

  /** `trim` keeps every character that is not white space, so such a string never trims to `''`. */
  lemma TrimKeepsNonSpace(s: string, i: nat)
    requires i < |s| && !IsSpace(s[i])
    ensures Trim(s) != ""
  {
    TrimStripsSpace(s);
    var a, b :| 0 <= a <= b <= |s| && Trim(s) == s[a..b] && AllSpace(s[..a]) && AllSpace(s[b..]);
    assert s[a..b][i - a] == s[i];
  }

  lemma TrimIdempotent(s: string)
    ensures Trim(Trim(s)) == Trim(s)
  {
    assert [] + Trim(s) + [] == Trim(s);
    TrimUnique([], Trim(s), []);
  }

  function DigitChar(d: nat): (c: char)
    requires d < 10
    ensures IsDigit(c)
  {
    ('0' as int + d) as char
  }

  /** The value of a run of decimal digits, read from the left. */
  function DecimalValue(r: string): nat
    requires forall i | 0 <= i < |r| :: IsDigit(r[i])
    decreases |r|
  {
    if r == [] then 0
    else
      assert IsDigit(r[|r| - 1]);
      DecimalValue(r[..|r| - 1]) * 10 + (r[|r| - 1] as int - '0' as int)
  }

  /**
   * The decimal numeral of a natural number, as `String(n)` writes it: digits that read
   * back as `n`, with no leading zero.
   */
  function NatToString(n: nat): (r: string)
    ensures r != []
    ensures forall i | 0 <= i < |r| :: IsDigit(r[i])
    ensures DecimalValue(r) == n
    ensures r[0] == '0' ==> r == "0"
    decreases n
  {
    if n < 10 then [DigitChar(n)]
    else
      var front := NatToString(n / 10);
      var r := front + [DigitChar(n % 10)];
      assert r[..|r| - 1] == front;
      r
  }

  /** `String(v)`; template literals `${v}` and `includes(v)` convert the same way. */
  function ToStr(v: JsValue): string {
    match v
    case Undef => "undefined"
    case JsNull => "null"
    case Str(s) => s
    case Num(n) => if n < 0 then "-" + NatToString(-n) else NatToString(n)
  }

  /** `ensureString`: the empty string for `null`/`undefined`, the trimmed string form otherwise. */
  function EnsureString(v: JsValue): (r: string)
    ensures IsTrimmed(r)
    ensures (v.Undef? || v.JsNull?) ==> r == ""
    ensures !(v.Undef? || v.JsNull?) ==> r == Trim(ToStr(v))
  {
    if v.Undef? || v.JsNull? then "" else Trim(ToStr(v))
  }

  /** A string passed through `ensureString` again is left as it is. */
  lemma EnsureStringIdempotent(v: JsValue)
    ensures EnsureString(Str(EnsureString(v))) == EnsureString(v)
  {
    if !(v.Undef? || v.JsNull?) {
      TrimIdempotent(ToStr(v));
    } else {
      assert Trim("") == "" by { TrimUnique([], [], []); }
    }
  }

  /** The first index of `c` in `s`, or `|s|` when there is none (`indexOf` with -1 read as `|s|`). */
  function IndexOf(s: string, c: char): (i: nat)
    ensures i <= |s|
    ensures i < |s| ==> s[i] == c
    ensures forall j | 0 <= j < i :: s[j] != c
  {
    if s == [] then 0
    else if s[0] == c then 0
    else 1 + IndexOf(s[1..], c)
  }

  /** The text before the first `c` holds no `c`, and a `c` in `s` is found. */
  lemma IndexOfSplits(s: string, c: char)
    ensures c !in s[..IndexOf(s, c)]
    ensures c in s ==> IndexOf(s, c) < |s|
  {
    var i := IndexOf(s, c);
    forall x | 0 <= x < i ensures s[..i][x] != c { assert s[..i][x] == s[x]; }
  }

  /** `w` occurs in `s` at position `m`. */
  predicate OccursAt(s: string, m: nat, w: string) {
    m + |w| <= |s| && s[m..m + |w|] == w
  }

  /** `String.prototype.includes`. */
  predicate Contains(s: string, w: string) {
    exists m | 0 <= m <= |s| :: OccursAt(s, m, w)
  }

  /** The first position at or after `i` where `w` occurs. */
  function FindFrom(s: string, w: string, i: nat): (m: Option<nat>)
    requires i <= |s|
    ensures m.Some? ==> i <= m.value <= |s| && OccursAt(s, m.value, w)
    ensures m.Some? ==> forall j | i <= j < m.value :: !OccursAt(s, j, w)
    ensures m.None? ==> forall j | i <= j <= |s| :: !OccursAt(s, j, w)
    decreases |s| - i
  {
    if OccursAt(s, i, w) then Some(i)
    else if i < |s| then FindFrom(s, w, i + 1)
    else None
  }

  /** `s.replace(pat, rep)` with a string pattern: only the first occurrence is replaced. */
  function ReplaceFirst(s: string, pat: string, rep: string): string {
    match FindFrom(s, pat, 0)
    case Some(m) => s[..m] + rep + s[m + |pat|..]
    case None => s
  }
}

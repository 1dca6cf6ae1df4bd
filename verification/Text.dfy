/** Identifiers and the string functions of the Go standard library that the model relies on. */
module Text {

  /** A 128-bit identifier; zero is the nil identifier. */
  type Uuid = x: int | 0 <= x < 0x1_0000_0000_0000_0000_0000_0000_0000_0000

  const NIL: Uuid := 0

  // ---------------------------------------------------------------- Characters and blanks

  /** White space as unicode.IsSpace defines it. */
  predicate IsSpace(c: char) {
    var n := c as int;
    || 9 <= n <= 13 || n == 32 || n == 0x85 || n == 0xA0 || n == 0x1680
    || 0x2000 <= n <= 0x200A || n == 0x2028 || n == 0x2029 || n == 0x202F || n == 0x205F || n == 0x3000
  }

  /** strings.TrimSpace(s) == "". */
  predicate Blank(s: string) {
    forall i | 0 <= i < |s| :: IsSpace(s[i])
  }

  predicate IsDigit(c: char) {
    '0' <= c <= '9'
  }

  predicate IsHex(c: char) {
    IsDigit(c) || 'a' <= c <= 'f'
  }

  /** The pattern ^[0-9a-f]{64}$. */
  predicate IsSha256(s: string) {
    |s| == 64 && forall i | 0 <= i < |s| :: IsHex(s[i])
  }

  // ---------------------------------------------------------------- Splitting and joining

  /** strings.Split on one separator character: always at least one part. */
  function Split(s: string, separator: char): (parts: seq<string>)
    ensures |parts| >= 1
  {
    if s == "" then [""]
    else
      var rest := Split(s[1..], separator);
      if s[0] == separator then [""] + rest else [[s[0]] + rest[0]] + rest[1..]
  }

  /** strings.Join with one separator character. */
  function Join(parts: seq<string>, separator: char): string {
    if |parts| == 0 then ""
    else if |parts| == 1 then parts[0]
    else parts[0] + [separator] + Join(parts[1..], separator)
  }

  lemma {:induction false} SplitPrefix(part: string, rest: string, separator: char)
    requires separator !in part
    ensures Split(part + [separator] + rest, separator) == [part] + Split(rest, separator)
  {
    var s := part + [separator] + rest;
    if part == "" {
      assert s[1..] == rest;
    } else {
      SplitPrefix(part[1..], rest, separator);
      assert s[1..] == part[1..] + [separator] + rest;
      assert [s[0]] + part[1..] == part;
    }
  }

  lemma {:induction false} SplitWhole(part: string, separator: char)
    requires separator !in part
    ensures Split(part, separator) == [part]
  {
    if part != "" {
      SplitWhole(part[1..], separator);
      assert [part[0]] + part[1..] == part;
    }
  }

  /** Splitting recovers the joined parts when none contains the separator. */
  lemma {:induction false} SplitJoin(parts: seq<string>, separator: char)
    requires |parts| >= 1
    requires forall i | 0 <= i < |parts| :: separator !in parts[i]
    ensures Split(Join(parts, separator), separator) == parts
  {
    if |parts| == 1 {
      SplitWhole(parts[0], separator);
    } else {
      SplitPrefix(parts[0], Join(parts[1..], separator), separator);
      SplitJoin(parts[1..], separator);
      assert [parts[0]] + parts[1..] == parts;
    }
  }

  lemma JoinInjective(a: seq<string>, b: seq<string>, separator: char)
    requires |a| >= 1 && |b| >= 1
    requires forall i | 0 <= i < |a| :: separator !in a[i]
    requires forall i | 0 <= i < |b| :: separator !in b[i]
    requires Join(a, separator) == Join(b, separator)
    ensures a == b
  {
    SplitJoin(a, separator);
    SplitJoin(b, separator);
  }

  // ---------------------------------------------------------------- Decimal numerals

  function DigitChar(d: int): char
    requires 0 <= d < 10
  {
    ('0' as int + d) as char
  }

  /** strconv.Itoa on a non-negative number. */
  function Itoa(n: nat): string {
    if n < 10 then [DigitChar(n)] else Itoa(n / 10) + [DigitChar(n % 10)]
  }

  /** strconv.Itoa on any number. */
  function ItoaInt(n: int): string {
    if n < 0 then "-" + Itoa(-n) else Itoa(n)
  }

  predicate AllDigits(s: string) {
    forall i | 0 <= i < |s| :: IsDigit(s[i])
  }

  /** The number a run of digits denotes. */
  function DigitsValue(s: string): nat
    requires AllDigits(s)
  {
    if s == "" then 0
    else 10 * DigitsValue(s[..|s| - 1]) + (s[|s| - 1] as int - '0' as int)
  }

  lemma {:induction false} ItoaValue(n: nat)
    ensures Itoa(n) != "" && AllDigits(Itoa(n)) && DigitsValue(Itoa(n)) == n
  {
    if n < 10 {
      assert Itoa(n)[..0] == "";
    } else {
      ItoaValue(n / 10);
      assert Itoa(n)[..|Itoa(n)| - 1] == Itoa(n / 10);
    }
  }

  lemma ItoaIntInjective(a: int, b: int)
    requires ItoaInt(a) == ItoaInt(b)
    ensures a == b
  {
    var x, y := if a < 0 then -a else a, if b < 0 then -b else b;
    ItoaValue(x);
    ItoaValue(y);
    if a < 0 {
      assert ItoaInt(a)[0] == '-' && ItoaInt(a)[1..] == Itoa(x);
    }
    if b < 0 {
      assert ItoaInt(b)[0] == '-' && ItoaInt(b)[1..] == Itoa(y);
    }
  }

  lemma ItoaIntHasNo(n: int, c: char)
    requires !IsDigit(c) && c != '-'
    ensures c !in ItoaInt(n)
  {
    ItoaValue(if n < 0 then -n else n);
  }

  // ---------------------------------------------------------------- Lexicographic order

  /** The strict order of sort.Strings. */
  predicate Less(a: string, b: string) {
    b != "" && (a == "" || a[0] < b[0] || (a[0] == b[0] && Less(a[1..], b[1..])))
  }

  /** One text comes before another when it is a proper beginning of it, or has the smaller character where they first differ. */
  lemma {:induction false} LessIsLexicographic(a: string, b: string)
    ensures Less(a, b) <==> exists k :: FirstDifference(a, b, k)
  {
    if a != "" && b != "" && a[0] == b[0] {
      LessIsLexicographic(a[1..], b[1..]);
      if k :| FirstDifference(a[1..], b[1..], k) {
        assert a[..k + 1] == [a[0]] + a[1..][..k] && b[..k + 1] == [b[0]] + b[1..][..k];
        assert FirstDifference(a, b, k + 1);
      }
      if k :| FirstDifference(a, b, k) {
        assert k > 0;
        assert a[1..][..k - 1] == a[..k][1..] && b[1..][..k - 1] == b[..k][1..];
        assert FirstDifference(a[1..], b[1..], k - 1);
      }
    } else if Less(a, b) {
      assert FirstDifference(a, b, 0);
    }
  }

  /** The texts agree up to k, where the first ends or has the smaller character. */
  predicate FirstDifference(a: string, b: string, k: int) {
    0 <= k <= |a| && k < |b| && a[..k] == b[..k] && (k == |a| || a[k] < b[k])
  }

  lemma {:induction false} LessTotal(a: string, b: string)
    ensures Less(a, b) || a == b || Less(b, a)
  {
    if a != "" && b != "" && a[0] == b[0] {
      LessTotal(a[1..], b[1..]);
      assert a == [a[0]] + a[1..] && b == [b[0]] + b[1..];
    }
  }

  lemma {:induction false} LessIrreflexive(a: string)
    ensures !Less(a, a)
  {
    if a != "" {
      LessIrreflexive(a[1..]);
    }
  }

  lemma {:induction false} LessTransitive(a: string, b: string, c: string)
    requires Less(a, b) && Less(b, c)
    ensures Less(a, c)
  {
    if a != "" && a[0] == b[0] && b[0] == c[0] {
      LessTransitive(a[1..], b[1..], c[1..]);
    }
  }

  lemma {:induction false} LessConcat(a: string, b: string, s: string, t: string)
    requires |a| == |b|
    ensures Less(a + s, b + t) <==> Less(a, b) || (a == b && Less(s, t))
  {
    if a == "" {
      assert a + s == s && b + t == t;
    } else {
      LessConcat(a[1..], b[1..], s, t);
      assert (a + s)[1..] == a[1..] + s && (b + t)[1..] == b[1..] + t;
      assert a == [a[0]] + a[1..] && b == [b[0]] + b[1..];
      if a == b {
        LessIrreflexive(a);
      }
    }
  }

  // ---------------------------------------------------------------- Canonical identifier text

  function HexChar(d: int): char
    requires 0 <= d < 16
  {
    if d < 10 then ('0' as int + d) as char else ('a' as int + d - 10) as char
  }

  /** The low hexadecimal digits of n, most significant first. */
  function HexDigits(n: nat, digits: nat): (s: string)
    ensures |s| == digits
  {
    if digits == 0 then "" else HexDigits(n / 16, digits - 1) + [HexChar(n % 16)]
  }

  function Pow16(k: nat): nat {
    if k == 0 then 1 else 16 * Pow16(k - 1)
  }

  lemma {:induction false} HexDigitsAreHex(n: nat, digits: nat)
    ensures forall i | 0 <= i < digits :: IsHex(HexDigits(n, digits)[i])
  {
    if digits > 0 {
      HexDigitsAreHex(n / 16, digits - 1);
    }
  }

  /** On numbers that fit, hexadecimal text of one width orders as the numbers do. */
  lemma {:induction false} HexDigitsOrder(a: nat, b: nat, digits: nat)
    requires a < Pow16(digits) && b < Pow16(digits)
    ensures Less(HexDigits(a, digits), HexDigits(b, digits)) <==> a < b
    ensures HexDigits(a, digits) == HexDigits(b, digits) ==> a == b
  {
    if digits > 0 {
      var x, y := HexDigits(a / 16, digits - 1), HexDigits(b / 16, digits - 1);
      HexDigitsOrder(a / 16, b / 16, digits - 1);
      LessConcat(x, y, [HexChar(a % 16)], [HexChar(b % 16)]);
      if HexDigits(a, digits) == HexDigits(b, digits) {
        assert HexDigits(a, digits)[..digits - 1] == x && HexDigits(b, digits)[..digits - 1] == y;
        assert HexDigits(a, digits)[digits - 1] == HexDigits(b, digits)[digits - 1];
      }
    }
  }

  /** The 8-4-4-4-12 layout of 32 hexadecimal digits. */
  function Dashed(h: string): string
    requires |h| == 32
  {
    h[..8] + ("-" + (h[8..12] + ("-" + (h[12..16] + ("-" + (h[16..20] + ("-" + h[20..])))))))
  }

  /** The canonical text of an identifier. */
  function UuidString(u: Uuid): string {
    Dashed(HexDigits(u, 32))
  }

  lemma UuidFits(u: Uuid)
    ensures u < Pow16(32)
  {
    assert Pow16(8) == 0x1_0000_0000;
    assert Pow16(16) == 0x1_0000_0000_0000_0000;
    assert Pow16(24) == 0x1_0000_0000_0000_0000_0000_0000;
  }

  lemma UuidStringShape(u: Uuid)
    ensures |UuidString(u)| == 36
    ensures forall c | c in UuidString(u) :: IsHex(c) || c == '-'
  {
    HexDigitsAreHex(u, 32);
  }

  /** Cutting equal-length texts at the same place compares the pieces in turn. */
  lemma LessCut(s: string, t: string, at: nat)
    requires |s| == |t| && at <= |s|
    ensures Less(s, t) <==> Less(s[..at], t[..at]) || (s[..at] == t[..at] && Less(s[at..], t[at..]))
  {
    LessConcat(s[..at], t[..at], s[at..], t[at..]);
    assert s == s[..at] + s[at..] && t == t[..at] + t[at..];
  }

  lemma LessDash(s: string, t: string)
    ensures Less("-" + s, "-" + t) <==> Less(s, t)
  {
    LessConcat("-", "-", s, t);
    LessIrreflexive("-");
  }

  /** Canonical identifier text is one-to-one and sorts as the identifiers do. */
  lemma UuidStringOrder(a: Uuid, b: Uuid)
    ensures Less(UuidString(a), UuidString(b)) <==> a < b
    ensures UuidString(a) == UuidString(b) ==> a == b
  {
    var h, k := HexDigits(a, 32), HexDigits(b, 32);
    UuidFits(a);
    UuidFits(b);
    HexDigitsOrder(a, b, 32);
    DashedOrder(h, k);
    if UuidString(a) == UuidString(b) {
      assert !Less(h, k) && !Less(k, h) by {
        DashedOrder(k, h);
        LessIrreflexive(UuidString(a));
      }
      LessTotal(h, k);
    }
  }

  lemma DashedOrder(h: string, k: string)
    requires |h| == |k| == 32
    ensures Less(Dashed(h), Dashed(k)) <==> Less(h, k)
  {
    DashedStep(h, k, 8, 12, "-" + (h[12..16] + ("-" + (h[16..20] + ("-" + h[20..])))),
               "-" + (k[12..16] + ("-" + (k[16..20] + ("-" + k[20..])))));
    DashedTail(h, k, 12);
  }

  lemma DashedStep(h: string, k: string, i: nat, j: nat, s: string, t: string)
    requires |h| == |k| && i <= j <= |h|
    ensures Less(h[..i] + ("-" + (h[i..j] + s)), k[..i] + ("-" + (k[i..j] + t)))
       <==> Less(h[..j], k[..j]) || (h[..j] == k[..j] && Less(s, t))
  {
    LessConcat(h[..i], k[..i], "-" + (h[i..j] + s), "-" + (k[i..j] + t));
    LessDash(h[i..j] + s, k[i..j] + t);
    LessConcat(h[i..j], k[i..j], s, t);
    LessConcat(h[..i], k[..i], h[i..j], k[i..j]);
    assert h[..j] == h[..i] + h[i..j] && k[..j] == k[..i] + k[i..j];
  }

  lemma DashedTail(h: string, k: string, from: nat)
    requires |h| == |k| == 32 && from == 12
    ensures Less("-" + (h[12..16] + ("-" + (h[16..20] + ("-" + h[20..])))),
                 "-" + (k[12..16] + ("-" + (k[16..20] + ("-" + k[20..])))))
       <==> Less(h[12..], k[12..])
    ensures Less(h, k) <==> Less(h[..12], k[..12]) || (h[..12] == k[..12] && Less(h[12..], k[12..]))
  {
    LessCut(h, k, 12);
    var s, t := h[12..16] + ("-" + (h[16..20] + ("-" + h[20..]))), k[12..16] + ("-" + (k[16..20] + ("-" + k[20..])));
    LessDash(s, t);
    var u, w := h[12..], k[12..];
    assert u[..4] == h[12..16] && u[4..8] == h[16..20] && u[8..] == h[20..];
    assert w[..4] == k[12..16] && w[4..8] == k[16..20] && w[8..] == k[20..];
    DashedStep(u, w, 4, 8, "-" + u[8..], "-" + w[8..]);
    LessDash(u[8..], w[8..]);
    LessCut(u, w, 8);
  }

  // ---------------------------------------------------------------- Locators

  predicate LocatorLabelChar(c: char) {
    'a' <= c <= 'z' || c == '-'
  }

  predicate LocatorValueChar(c: char) {
    LocatorLabelChar(c) || IsDigit(c) || c == '.'
  }

  /** One segment of the pattern [a-z][a-z-]*:[a-z0-9.-]+ with its colon at position colon. */
  predicate SegmentSplitsAt(s: string, colon: int) {
    && 1 <= colon < |s| - 1
    && 'a' <= s[0] <= 'z' && s[colon] == ':'
    && (forall i | 1 <= i < colon :: LocatorLabelChar(s[i]))
    && (forall i | colon < i < |s| :: LocatorValueChar(s[i]))
  }

  predicate LocatorSegment(s: string) {
    exists colon | 0 <= colon < |s| :: SegmentSplitsAt(s, colon)
  }

  /** The pattern of a canonical locator: slash-separated segments. */
  predicate CanonicalLocator(s: string) {
    var segments := Split(s, '/');
    forall i | 0 <= i < |segments| :: LocatorSegment(segments[i])
  }

  /** Every character of a text is the separator or survives in some part. */
  lemma {:induction false} SplitCovers(s: string, separator: char, i: nat)
    requires i < |s| && s[i] != separator
    ensures exists part :: part in Split(s, separator) && s[i] in part
  {
    var rest := Split(s[1..], separator);
    if i == 0 {
      assert s[0] in [s[0]] + rest[0];
      assert [s[0]] + rest[0] in Split(s, separator);
    } else {
      SplitCovers(s[1..], separator, i - 1);
      var part :| part in rest && s[i] in part;
      if part == rest[0] && s[0] != separator {
        assert Split(s, separator)[0] == [s[0]] + rest[0];
        assert s[i] in Split(s, separator)[0];
      } else if s[0] == separator {
        assert part in [""] + rest;
      } else {
        var j :| 0 <= j < |rest| && rest[j] == part;
        assert Split(s, separator)[j] == part;
      }
    }
  }

  lemma SegmentHasNoBar(part: string)
    requires LocatorSegment(part)
    ensures '|' !in part
  {
  }

  lemma CanonicalLocatorHasNoBar(s: string)
    requires CanonicalLocator(s)
    ensures '|' !in s
  {
    forall i | 0 <= i < |s| ensures s[i] != '|' {
      if s[i] != '/' {
        SplitCovers(s, '/', i);
        var part :| part in Split(s, '/') && s[i] in part;
        SegmentHasNoBar(part);
      }
    }
  }
}

/** The string operations the components rely on: `trim`, `toLowerCase`,
    `includes`, `join`, the default string order of `sort`, `parseInt`,
    `parseFloat` read as pence, and the way a number is shown as text. */
module Text {
  import opened Wrappers
  import Seqs

  // ---- white space, trim ----

  /** White space and line terminators as `String.prototype.trim` and the
      number parsers skip them. */
  predicate IsSpace(c: char) {
    || c == '\t' || c == '\n' || c == '\U{000B}' || c == '\U{000C}' || c == '\r'
    || c == ' ' || c == '\U{00A0}' || c == '\U{1680}' || '\U{2000}' <= c <= '\U{200A}'
    || c == '\U{2028}' || c == '\U{2029}' || c == '\U{202F}' || c == '\U{205F}'
    || c == '\U{3000}' || c == '\U{FEFF}'
  }

  /** `s` without its leading white space: a suffix of `s` that starts with a
      non-space, cut after white space only. */
  function TrimStart(s: string): (r: string)
    ensures |r| <= |s| && r == s[|s| - |r|..]
    ensures r == [] || !IsSpace(r[0])
    ensures forall k :: 0 <= k < |s| - |r| ==> IsSpace(s[k])
  {
    if s != [] && IsSpace(s[0]) then TrimStart(s[1..]) else s
  }

  /** `s` without its trailing white space. */
  function TrimEnd(s: string): (r: string)
    ensures |r| <= |s| && r == s[..|r|]
    ensures r == [] || !IsSpace(r[|r| - 1])
    ensures forall k :: |r| <= k < |s| ==> IsSpace(s[k])
  {
    if s != [] && IsSpace(s[|s| - 1]) then TrimEnd(s[..|s| - 1]) else s
  }

  /** `s.trim()`. */
  function Trim(s: string): (r: string)
    ensures r == [] || (!IsSpace(r[0]) && !IsSpace(r[|r| - 1]))
    ensures r == [] <==> forall k :: 0 <= k < |s| ==> IsSpace(s[k])
  {
    var t := TrimStart(s);
    var r := TrimEnd(t);
    assert r != [] ==> r[0] == t[0];
    r
  }

  /** Trimming twice is trimming once. */
  lemma TrimIdempotent(s: string)
    ensures Trim(Trim(s)) == Trim(s)
  {
    var r := Trim(s);
    assert TrimStart(r) == r;
    assert TrimEnd(r) == r;
  }

  // ---- case, search, join ----

  /** `toLowerCase` on one character (ASCII letters only). */
  function LowerChar(c: char): char {
    if 'A' <= c <= 'Z' then (c as int + 32) as char else c
  }

  function ToLower(s: string): (r: string)
    ensures |r| == |s|
  {
    seq(|s|, i requires 0 <= i < |s| => LowerChar(s[i]))
  }

  predicate StartsWith(s: string, prefix: string) {
    |prefix| <= |s| && s[..|prefix|] == prefix
  }

  /** `s.includes(sub)`. */
  predicate Contains(s: string, sub: string) {
    StartsWith(s, sub) || (s != [] && Contains(s[1..], sub))
  }

  /** `parts.join(sep)`. */
  function Join(parts: seq<string>, sep: string): string {
    if |parts| == 0 then ""
    else if |parts| == 1 then parts[0]
    else Join(parts[..|parts| - 1], sep) + sep + parts[|parts| - 1]
  }

  // ---- the default order of sort() on strings ----

  /** Lexicographic order on characters, the order `Array.prototype.sort`
      uses when it is given no comparator. */
  predicate StrLe(a: string, b: string) {
    a == [] || (b != [] && (a[0] < b[0] || (a[0] == b[0] && StrLe(a[1..], b[1..]))))
  }

  lemma {:induction false} StrLeTotal(a: string, b: string)
    ensures StrLe(a, b) || StrLe(b, a)
  {
    if a != [] && b != [] && a[0] == b[0] {
      StrLeTotal(a[1..], b[1..]);
    }
  }

  lemma {:induction false} StrLeTransitive(a: string, b: string, c: string)
    requires StrLe(a, b) && StrLe(b, c)
    ensures StrLe(a, c)
  {
    if a != [] && b != [] && c != [] && a[0] == b[0] == c[0] {
      StrLeTransitive(a[1..], b[1..], c[1..]);
    }
  }

  lemma {:induction false} StrLeAntisymmetric(a: string, b: string)
    requires StrLe(a, b) && StrLe(b, a)
    ensures a == b
  {
    if a != [] && b != [] {
      StrLeAntisymmetric(a[1..], b[1..]);
      assert a == [a[0]] + a[1..] && b == [b[0]] + b[1..];
    }
  }

  lemma StrLeIsTotalPreorder()
    ensures Seqs.TotalPreorder(StrLe)
  {
    forall a, b ensures StrLe(a, b) || StrLe(b, a) { StrLeTotal(a, b); }
    forall a, b, c | StrLe(a, b) && StrLe(b, c) ensures StrLe(a, c) { StrLeTransitive(a, b, c); }
  }

  // ---- digits and numbers ----

  predicate IsDigit(c: char) { '0' <= c <= '9' }

  predicate AllDigits(s: string) { forall k :: 0 <= k < |s| ==> IsDigit(s[k]) }

  function DigitChar(d: nat): (c: char)
    requires d < 10
    ensures IsDigit(c)
  {
    ('0' as int + d) as char
  }

  /** The value of a string of decimal digits. */
  function DigitsValue(ds: string): nat
    requires AllDigits(ds)
  {
    if ds == [] then 0
    else DigitsValue(ds[..|ds| - 1]) * 10 + ((ds[|ds| - 1] as int) - ('0' as int))
  }

  /** The longest prefix of `s` made of decimal digits. */
  function LeadingDigits(s: string): (r: string)
    ensures |r| <= |s| && r == s[..|r|] && AllDigits(r)
    ensures |r| == |s| || !IsDigit(s[|r|])
  {
    if s != [] && IsDigit(s[0]) then [s[0]] + LeadingDigits(s[1..]) else []
  }

  lemma {:induction false} LeadingDigitsOf(ds: string, rest: string)
    requires AllDigits(ds)
    requires rest == [] || !IsDigit(rest[0])
    ensures LeadingDigits(ds + rest) == ds
  {
    if ds != [] {
      assert (ds + rest)[1..] == ds[1..] + rest;
      LeadingDigitsOf(ds[1..], rest);
    }
  }

  /** A leading sign: whether it is a minus, and what follows it. */
  function SplitSign(t: string): (bool, string) {
    if t != [] && (t[0] == '-' || t[0] == '+') then (t[0] == '-', t[1..]) else (false, t)
  }

  /** `parseInt(s)` in base ten: leading white space, an optional sign and the
      longest run of digits; `None` stands for `NaN`. */
  function ParseInt(s: string): Option<int> {
    var signed := SplitSign(TrimStart(s));
    var ds := LeadingDigits(signed.1);
    var v: int := if ds == [] then 0 else DigitsValue(ds);
    if ds == [] then None else Some(if signed.0 then -v else v)
  }

  /** The decimal text of a natural number, without leading zeros. */
  function NatText(n: nat): (r: string)
    ensures r != [] && AllDigits(r)
  {
    if n < 10 then [DigitChar(n)] else NatText(n / 10) + [DigitChar(n % 10)]
  }

  lemma {:induction false} NatTextValue(n: nat)
    ensures DigitsValue(NatText(n)) == n
  {
    if n >= 10 {
      NatTextValue(n / 10);
      var t := NatText(n);
      assert t[..|t| - 1] == NatText(n / 10);
    }
  }

  /** How `String(n)` writes an integer. */
  function IntText(n: int): string {
    if n < 0 then "-" + NatText(-n) else NatText(n)
  }

  /** `parseInt` reads back the text of any integer. */
  lemma ParseIntText(n: int)
    ensures ParseInt(IntText(n)) == Some(n)
  {
    var a: nat := if n < 0 then -n else n;
    var digits := NatText(a);
    var t := IntText(n);
    SignedTextSplits(n < 0, digits);
    LeadingDigitsOf(digits, []);
    assert digits + [] == digits;
    NatTextValue(a);
  }

  /** Nothing is trimmed from a text that starts with a non-space. */
  lemma TrimStartKeeps(t: string)
    requires t != [] && !IsSpace(t[0])
    ensures TrimStart(t) == t
  {
  }

  /** A text made of an optional minus and digits is read without skipping
      anything. */
  lemma SignedTextSplits(negative: bool, digits: string)
    requires digits != [] && IsDigit(digits[0])
    ensures var t := if negative then "-" + digits else digits;
      SplitSign(TrimStart(t)) == (negative, digits)
  {
    if negative {
      var t := "-" + digits;
      assert t[0] == '-' && t[1..] == digits;
      TrimStartKeeps(t);
    } else {
      assert !IsSpace(digits[0]) && digits[0] != '-' && digits[0] != '+';
      TrimStartKeeps(digits);
    }
  }

  // ---- money as pence ----

  /** The pence given by the digits after the decimal point, when they do not
      go below a penny. */
  function FractionPence(ds: string): (r: Option<nat>)
    requires AllDigits(ds)
    ensures r.Some? ==> r.value < 100
  {
    if |ds| == 0 then Some(0)
    else if |ds| == 1 then Some(((ds[0] as int) - ('0' as int)) * 10)
    else if forall k :: 2 <= k < |ds| ==> ds[k] == '0' then
      Some(((ds[0] as int) - ('0' as int)) * 10 + ((ds[1] as int) - ('0' as int)))
    else None
  }

  /** Whether `rest` opens an exponent that `parseFloat` would read: an `e`
      or `E`, an optional sign and at least one digit. */
  predicate ExponentFollows(rest: string) {
    && rest != [] && (rest[0] == 'e' || rest[0] == 'E')
    && LeadingDigits(SplitSign(rest[1..]).1) != []
  }

  /** The pieces of an unsigned amount: the digits before the point, the
      digits after it (none when there is no point), and what follows. */
  function AmountPieces(t: string): (r: (string, string, string))
    ensures AllDigits(r.0) && AllDigits(r.1)
  {
    var whole := LeadingDigits(t);
    var after := t[|whole|..];
    if after != [] && after[0] == '.' then
      var fraction := LeadingDigits(after[1..]);
      (whole, fraction, after[1 + |fraction|..])
    else (whole, [], after)
  }

  /** The amount the pieces of an unsigned amount make: none without a
      digit, none when an exponent follows, none below a penny. */
  function PiecesPence(whole: string, fraction: string, rest: string): Option<nat>
    requires AllDigits(whole) && AllDigits(fraction)
  {
    if whole == [] && fraction == [] then None
    else if ExponentFollows(rest) then None
    else match FractionPence(fraction)
      case None => None
      case Some(f) => Some(DigitsValue(whole) * 100 + f)
  }

  /** An unsigned amount: digits, and optionally a point followed by digits.
      An amount written with an exponent is not read (`None`). */
  function UnsignedPence(t: string): Option<nat> {
    var pieces := AmountPieces(t);
    PiecesPence(pieces.0, pieces.1, pieces.2)
  }

  /** `parseFloat(s)` read as an amount of pence: leading white space, an
      optional sign, then an unsigned amount. `None` stands for `NaN`, for
      amounts finer than a penny and for amounts with an exponent. */
  function ParsePence(s: string): Option<int> {
    var signed := SplitSign(TrimStart(s));
    match UnsignedPence(signed.1)
    case None => None
    case Some(a) => var v: int := a; Some(if signed.0 then -v else v)
  }

  /** The digits after the point for `c` pence, without trailing zeros. */
  function CentsText(c: nat): (r: string)
    requires 0 < c < 100
    ensures AllDigits(r) && 0 < |r| <= 2
  {
    if c % 10 == 0 then [DigitChar(c / 10)] else [DigitChar(c / 10), DigitChar(c % 10)]
  }

  /** How `String(a / 100)` writes `a` pence, for `a` not negative. */
  function UnsignedPenceText(a: nat): (r: string)
    ensures r != [] && IsDigit(r[0])
  {
    var cents := a % 100;
    NatText(a / 100) + (if cents == 0 then "" else "." + CentsText(cents))
  }

  /** How `String(p / 100)` writes an amount of `p` pence: no trailing zeros
      after the point, and no point at all for whole pounds. */
  function PenceText(p: int): string {
    if p < 0 then "-" + UnsignedPenceText(-p) else UnsignedPenceText(p)
  }

  /** How a box shows an optional amount: `a ? String(a) : ""`, so no
      amount and a zero amount both show as empty. */
  function AmountText(a: Option<int>): (r: string)
    ensures r == "" <==> a == None || a == Some(0)
  {
    if a.Some? && a.value != 0 then PenceText(a.value) else ""
  }

  lemma CentsTextValue(c: nat)
    requires 0 < c < 100
    ensures FractionPence(CentsText(c)) == Some(c)
  {
  }

  lemma UnsignedPenceRoundTrip(a: nat)
    ensures UnsignedPence(UnsignedPenceText(a)) == Some(a)
  {
    var cents := a % 100;
    var w := NatText(a / 100);
    var tail: string := if cents == 0 then "" else "." + CentsText(cents);
    var t := UnsignedPenceText(a);
    assert t == w + tail;
    LeadingDigitsOf(w, tail);
    assert t[|w|..] == tail;
    if cents != 0 {
      var f := CentsText(cents);
      assert tail[1..] == f;
      LeadingDigitsOf(f, []);
      assert f + [] == f;
      CentsTextValue(cents);
    }
    NatTextValue(a / 100);
  }

  /** Reading back the text of an amount gives the amount. */
  lemma PencePrintParse(p: int)
    ensures ParsePence(PenceText(p)) == Some(p)
  {
    var a: nat := if p < 0 then -p else p;
    SignedTextSplits(p < 0, UnsignedPenceText(a));
    UnsignedPenceRoundTrip(a);
  }

  /** A text that starts with a digit is read as an unsigned amount. */
  lemma ParsePenceDigitFirst(t: string)
    requires t != [] && IsDigit(t[0])
    ensures ParsePence(t) == match UnsignedPence(t) case None => None case Some(a) => Some(a as int)
  {
    TrimStartKeeps(t);
    assert SplitSign(t) == (false, t);
  }

  /** Digits and then neither a digit nor a point: the whole pounds, unless
      an exponent follows. */
  lemma UnsignedPencePlain(whole: string, rest: string)
    requires whole != [] && AllDigits(whole)
    requires rest == [] || (!IsDigit(rest[0]) && rest[0] != '.')
    ensures UnsignedPence(whole + rest) == if ExponentFollows(rest) then None else Some(DigitsValue(whole) * 100)
  {
    LeadingDigitsOf(whole, rest);
    assert (whole + rest)[|whole|..] == rest;
  }

  /** How an amount with a point is read, given where its pieces lie. */
  lemma PointedRead(t: string, whole: string, f: string, rest: string)
    requires whole != [] && AllDigits(whole) && AllDigits(f)
    requires LeadingDigits(t) == whole
    requires t[|whole|..] != [] && t[|whole|..][0] == '.'
    requires LeadingDigits(t[|whole|..][1..]) == f
    requires t[|whole|..][1 + |f|..] == rest
    ensures UnsignedPence(t) == PiecesPence(whole, f, rest)
  {
    assert AmountPieces(t) == (whole, f, rest);
  }

  /** Digits, a point, digits, and then no digit: the pounds and the pence
      the fraction gives, unless an exponent follows. */
  lemma UnsignedPencePointed(whole: string, f: string, rest: string)
    requires whole != [] && AllDigits(whole) && AllDigits(f)
    requires rest == [] || !IsDigit(rest[0])
    ensures UnsignedPence(whole + "." + f + rest) == PiecesPence(whole, f, rest)
  {
    var tail := f + rest;
    var after := ['.'] + tail;
    var t := whole + after;
    assert whole + "." + f + rest == t;
    LeadingDigitsOf(whole, after);
    assert t[|whole|..] == after;
    assert after[1..] == tail;
    LeadingDigitsOf(f, rest);
    assert after[1 + |f|..] == rest;
    PointedRead(t, whole, f, rest);
  }

  /** The pence that up to two typed decimal digits stand for: one digit
      is tenths of a pound, two are pence. */
  function TypedCents(f: string): nat
    requires AllDigits(f) && |f| <= 2
  {
    if |f| == 0 then 0 else if |f| == 1 then DigitsValue(f) * 10 else DigitsValue(f)
  }

  /** Up to two digits after the point are read as the pence they stand for. */
  lemma FractionPenceShort(f: string)
    requires AllDigits(f) && |f| <= 2
    ensures FractionPence(f) == Some(TypedCents(f))
  {
    if |f| == 2 {
      assert f[..1][..0] == [];
      assert DigitsValue(f[..1]) == (f[0] as int) - ('0' as int);
      assert TypedCents(f) == DigitsValue(f);
    } else if |f| == 1 {
      assert f[..0] == [];
      assert DigitsValue(f) == (f[0] as int) - ('0' as int);
      assert TypedCents(f) == DigitsValue(f) * 10;
    }
  }

  /** A whole number of pounds, as a person types it into an amount box,
      reads as that many pounds. */
  lemma TypedPoundsPence(w: nat)
    ensures ParsePence(NatText(w)) == Some(w * 100)
  {
    var whole := NatText(w);
    NatTextValue(w);
    UnsignedPencePlain(whole, []);
    assert whole + [] == whole;
    ParsePenceDigitFirst(whole);
  }

  /** An amount that ends with its fraction is read as the pounds and the
      pence of that fraction. */
  lemma PiecesPenceAtEnd(whole: string, f: string, c: nat)
    requires whole != [] && AllDigits(whole) && AllDigits(f)
    requires FractionPence(f) == Some(c)
    ensures PiecesPence(whole, f, []) == Some(DigitsValue(whole) * 100 + c)
  {
  }

  lemma PointedToEnd(whole: string, f: string, c: nat)
    requires whole != [] && AllDigits(whole) && AllDigits(f)
    requires FractionPence(f) == Some(c)
    ensures UnsignedPence(whole + "." + f) == Some(DigitsValue(whole) * 100 + c)
  {
    var after := ['.'] + f;
    var t := whole + after;
    assert whole + "." + f == t;
    LeadingDigitsOf(whole, after);
    assert t[|whole|..] == after;
    assert after[1..] == f;
    LeadingDigitsOf(f, []);
    assert f + [] == f;
    assert after[1 + |f|..] == [];
    PointedRead(t, whole, f, []);
    PiecesPenceAtEnd(whole, f, c);
  }

  lemma TypedAmountUnsigned(w: nat, f: string)
    requires AllDigits(f) && |f| <= 2
    ensures UnsignedPence(NatText(w) + "." + f) == Some(w * 100 + TypedCents(f))
  {
    NatTextValue(w);
    FractionPenceShort(f);
    PointedToEnd(NatText(w), f, TypedCents(f));
  }

  /** Pounds, a point and up to two digits read as those pounds and pence;
      one digit after the point is tenths. */
  lemma TypedAmountPence(w: nat, f: string)
    requires AllDigits(f) && |f| <= 2
    ensures ParsePence(NatText(w) + "." + f) == Some(w * 100 + TypedCents(f))
  {
    var t := NatText(w) + "." + f;
    TypedAmountUnsigned(w, f);
    assert t[0] == NatText(w)[0];
    ParsePenceDigitFirst(t);
  }

  /** An `e` and digits open an exponent. */
  lemma ExponentOpens(ds: string)
    requires ds != [] && AllDigits(ds)
    ensures ExponentFollows("e" + ds)
  {
    assert ("e" + ds)[1..] == ds;
    assert SplitSign(ds) == (false, ds);
  }

  /** Pounds written with an exponent ("1e3") are not read as some other
      amount: they are not read at all. */
  lemma ExponentPoundsNotRead(w: nat, ds: string)
    requires ds != [] && AllDigits(ds)
    ensures ParsePence(NatText(w) + "e" + ds) == None
  {
    var whole := NatText(w);
    var rest := "e" + ds;
    ExponentOpens(ds);
    UnsignedPencePlain(whole, rest);
    assert whole + "e" + ds == whole + rest;
    ParsePenceDigitFirst(whole + rest);
  }

  /** Pounds and a fraction written with an exponent ("1.5e1") are not read
      either. */
  lemma ExponentAmountNotRead(w: nat, f: string, ds: string)
    requires AllDigits(f) && ds != [] && AllDigits(ds)
    ensures ParsePence(NatText(w) + "." + f + "e" + ds) == None
  {
    var whole := NatText(w);
    var rest := "e" + ds;
    ExponentOpens(ds);
    UnsignedPencePointed(whole, f, rest);
    assert whole + "." + f + "e" + ds == whole + "." + f + rest;
    ParsePenceDigitFirst(whole + "." + f + rest);
  }
}

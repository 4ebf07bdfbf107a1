/** The text of an IPv4 address: four decimal numbers with dots between. */
module Dotted {
  import opened Words

  function Decimal(n: nat): string {
    if n < 10 then [(n + '0' as int) as char] else Decimal(n / 10) + Decimal(n % 10)
  }

  function DottedQuad(b: seq<byte>): string
    requires |b| == 4
  {
    Decimal(b[0]) + "." + Decimal(b[1]) + "." + Decimal(b[2]) + "." + Decimal(b[3])
  }

  // What makes it the text of those four bytes.

  predicate Digits(s: string) {
    forall k | 0 <= k < |s| :: '0' <= s[k] <= '9'
  }

  /** The number that a string of digits denotes. */
  function ValueOf(s: string): nat
    requires Digits(s)
  {
    if s == "" then 0 else 10 * ValueOf(s[..|s| - 1]) + (s[|s| - 1] as int - 48)
  }

  /** s is n in decimal, without leading zeros. */
  predicate Numeral(s: string, n: nat) {
    s != "" && Digits(s) && ValueOf(s) == n && (|s| > 1 ==> s[0] != '0')
  }

  /** t is the numerals of four numbers with dots between. */
  ghost predicate IsQuad(t: string, a: nat, b: nat, c: nat, d: nat) {
    exists w, x, y, z | Numeral(w, a) && Numeral(x, b) && Numeral(y, c) && Numeral(z, d) ::
      t == w + "." + x + "." + y + "." + z
  }

  lemma {:induction false} DecimalIsNumeral(n: nat)
    ensures Numeral(Decimal(n), n)
    ensures n > 0 ==> Decimal(n)[0] != '0'
  {
    if n >= 10 {
      DecimalIsNumeral(n / 10);
      DecimalIsNumeral(n % 10);
      var s := Decimal(n);
      assert s[..|s| - 1] == Decimal(n / 10) && s[|s| - 1] == Decimal(n % 10)[0];
      assert Digits(Decimal(n % 10)) && ValueOf(Decimal(n % 10)[..0]) == 0;
    } else {
      assert Decimal(n)[..0] == "";
    }
  }

  lemma PositiveNumeral(s: string)
    requires s != "" && Digits(s) && s[0] != '0'
    ensures ValueOf(s) > 0
  {
    var p := s[..|s| - 1];
    if p != "" {
      PositiveNumeral(p);
    }
  }

  /** A number has one numeral. */
  lemma {:induction false} NumeralUnique(s: string, t: string, n: nat)
    requires Numeral(s, n) && Numeral(t, n)
    ensures s == t
  {
    var p, q := s[..|s| - 1], t[..|t| - 1];
    var d, e := s[|s| - 1] as int - 48, t[|t| - 1] as int - 48;
    assert n == 10 * ValueOf(p) + d == 10 * ValueOf(q) + e;
    assert s == p + [s[|s| - 1]] && t == q + [t[|t| - 1]];
    if p != "" {
      PositiveNumeral(p);
    }
    if q != "" {
      PositiveNumeral(q);
    }
    if p != "" && q != "" {
      NumeralUnique(p, q, ValueOf(p));
    }
  }

  lemma QuadIsText(b: seq<byte>)
    requires |b| == 4
    ensures IsQuad(DottedQuad(b), b[0], b[1], b[2], b[3])
  {
    hide Decimal, Numeral;
    DecimalIsNumeral(b[0]);
    DecimalIsNumeral(b[1]);
    DecimalIsNumeral(b[2]);
    DecimalIsNumeral(b[3]);
  }

  // Reading it back.

  /** The digits before the first dot are all there is to the first numeral. */
  lemma {:induction false} FirstNumeral(v: string, s: string, w: string, t: string)
    requires Digits(v) && Digits(w) && v + "." + s == w + "." + t
    ensures v == w && s == t
  {
    var whole := v + "." + s;
    assert whole[|v|] == '.' && whole == w + "." + t && whole[|w|] == '.';
    assert forall k | 0 <= k < |v| :: whole[k] == v[k];
    assert forall k | 0 <= k < |w| :: whole[k] == w[k];
    assert v == whole[..|v|] == w;
    assert s == whole[|v| + 1..] == t;
  }

  /** A text denotes one address. */
  lemma QuadDenotesOne(t: string, a: nat, b: nat, c: nat, d: nat, a': nat, b': nat, c': nat, d': nat)
    requires IsQuad(t, a, b, c, d) && IsQuad(t, a', b', c', d')
    ensures a == a' && b == b' && c == c' && d == d'
  {
    var w, x, y, z :| Numeral(w, a) && Numeral(x, b) && Numeral(y, c) && Numeral(z, d) &&
      t == w + "." + x + "." + y + "." + z;
    var w', x', y', z' :| Numeral(w', a') && Numeral(x', b') && Numeral(y', c') && Numeral(z', d') &&
      t == w' + "." + x' + "." + y' + "." + z';
    hide ValueOf;
    SameParts(w, x, y, z, w', x', y', z');
  }

  lemma SameParts(w: string, x: string, y: string, z: string, w': string, x': string, y': string, z': string)
    requires Digits(w) && Digits(x) && Digits(y) && Digits(w') && Digits(x') && Digits(y')
    requires w + "." + x + "." + y + "." + z == w' + "." + x' + "." + y' + "." + z'
    ensures w == w' && x == x' && y == y' && z == z'
  {
    hide Digits;
    assert w + "." + (x + "." + (y + "." + z)) == w + "." + x + "." + y + "." + z;
    assert w' + "." + (x' + "." + (y' + "." + z')) == w' + "." + x' + "." + y' + "." + z';
    FirstNumeral(w, x + "." + (y + "." + z), w', x' + "." + (y' + "." + z'));
    FirstNumeral(x, y + "." + z, x', y' + "." + z');
    FirstNumeral(y, z, y', z');
  }

  /** An address has one text. */
  lemma QuadUnique(s: string, t: string, a: nat, b: nat, c: nat, d: nat)
    requires IsQuad(s, a, b, c, d) && IsQuad(t, a, b, c, d)
    ensures s == t
  {
    var w, x, y, z :| Numeral(w, a) && Numeral(x, b) && Numeral(y, c) && Numeral(z, d) &&
      s == w + "." + x + "." + y + "." + z;
    var w', x', y', z' :| Numeral(w', a) && Numeral(x', b) && Numeral(y', c) && Numeral(z', d) &&
      t == w' + "." + x' + "." + y' + "." + z';
    hide Numeral;
    NumeralUnique(w, w', a);
    NumeralUnique(x, x', b);
    NumeralUnique(y, y', c);
    NumeralUnique(z, z', d);
  }

  /** Different addresses have different texts. */
  lemma QuadInjective(a: seq<byte>, b: seq<byte>)
    requires |a| == |b| == 4
    ensures DottedQuad(a) == DottedQuad(b) <==> a == b
  {
    if DottedQuad(a) == DottedQuad(b) {
      QuadIsText(a);
      QuadIsText(b);
      QuadDenotesOne(DottedQuad(a), a[0], a[1], a[2], a[3], b[0], b[1], b[2], b[3]);
      assert a == [a[0], a[1], a[2], a[3]] == b;
    }
  }
}

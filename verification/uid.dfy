/** The text key a scanned card is looked up and logged under: the decimal
    values of the first five anticollision bytes joined by commas
    (Edge_Coral/rfid.py, line 150). */
module UidText {

  /** Number of bytes the key is built from. */
  const KEY_BYTES: nat := 5

  predicate IsDigit(c: char) {
    '0' <= c <= '9'
  }

  predicate AllDigits(s: string) {
    forall i :: 0 <= i < |s| ==> IsDigit(s[i])
  }

  function DigitChar(d: nat): (c: char)
    requires d < 10
    ensures IsDigit(c) && (c as int) - ('0' as int) == d
  {
    "0123456789"[d]
  }

  function DigitValue(c: char): nat
    requires IsDigit(c)
  {
    (c as int) - ('0' as int)
  }

  /** `str(n)` for a natural number: its decimal digits, most significant
      first, without leading zeros. */
  function Decimal(n: nat): (s: string)
    ensures |s| >= 1 && AllDigits(s) && ',' !in s
    ensures |s| > 1 ==> s[0] != '0'
    ensures n < 10 <==> |s| == 1
  {
    if n < 10 then [DigitChar(n)] else Decimal(n / 10) + [DigitChar(n % 10)]
  }

  /** `int(s)` for a string of decimal digits. */
  function ParseDecimal(s: string): nat
    requires AllDigits(s)
  {
    if s == [] then 0 else ParseDecimal(s[..|s| - 1]) * 10 + DigitValue(s[|s| - 1])
  }

  /** Reading back the decimal rendering of `n` gives `n`. */
  lemma {:induction false} DecimalRoundTrip(n: nat)
    ensures ParseDecimal(Decimal(n)) == n
  {
    var s := Decimal(n);
    if n >= 10 {
      DecimalRoundTrip(n / 10);
      assert s[..|s| - 1] == Decimal(n / 10);
    }
  }

  /** Index of the first comma in `s`. */
  function FirstComma(s: string): (i: nat)
    requires ',' in s
    ensures i < |s| && s[i] == ',' && ',' !in s[..i]
  {
    if s[0] == ',' then 0
    else
      assert s == [s[0]] + s[1..];
      var j := FirstComma(s[1..]);
      assert s[..j + 1] == [s[0]] + s[1..][..j];
      j + 1
  }

  /** `s.split(",")`: the comma-free pieces between commas; always at least
      one piece. */
  function Split(s: string): (parts: seq<string>)
    ensures |parts| >= 1
    decreases |s|
  {
    if ',' !in s then [s]
    else
      var i := FirstComma(s);
      [s[..i]] + Split(s[i + 1..])
  }

  /** Splitting at the first comma, after a comma-free head. */
  lemma SplitAfterHead(head: string, tail: string)
    requires ',' !in head
    ensures Split(head + "," + tail) == [head] + Split(tail)
  {
    var s := head + "," + tail;
    assert s[|head|] == ',';
    var i := FirstComma(s);
    assert s[..i] == head;
    assert s[i + 1..] == tail;
  }

  /** `",".join(parts)`. */
  function Join(parts: seq<string>): string {
    if |parts| == 0 then ""
    else if |parts| == 1 then parts[0]
    else parts[0] + "," + Join(parts[1..])
  }

  /** Splitting a join of comma-free pieces gives the pieces back. */
  lemma {:induction false} SplitJoin(parts: seq<string>)
    requires |parts| >= 1
    requires forall k :: 0 <= k < |parts| ==> ',' !in parts[k]
    ensures Split(Join(parts)) == parts
  {
    if |parts| > 1 {
      SplitAfterHead(parts[0], Join(parts[1..]));
      SplitJoin(parts[1..]);
      assert [parts[0]] + parts[1..] == parts;
    } else {
      assert ',' !in parts[0];
    }
  }

  /** The decimal renderings of `bytes`, in order. */
  function Decimals(bytes: seq<bv8>): (parts: seq<string>)
    ensures |parts| == |bytes|
    ensures forall k :: 0 <= k < |parts| ==> parts[k] == Decimal(bytes[k] as nat)
  {
    if bytes == [] then [] else [Decimal(bytes[0] as nat)] + Decimals(bytes[1..])
  }

  /** `uid[:5]`. */
  function KeyBytes(uid: seq<bv8>): (b: seq<bv8>)
    ensures |b| == if |uid| <= KEY_BYTES then |uid| else KEY_BYTES
    ensures b <= uid
    ensures |uid| <= KEY_BYTES ==> b == uid
  {
    if |uid| <= KEY_BYTES then uid else uid[..KEY_BYTES]
  }

  /** The key of a card: the decimal values of its first five bytes joined
      by commas.  It is empty only for a card without bytes. */
  function UidString(uid: seq<bv8>): (s: string)
    ensures s == [] <==> uid == []
  {
    var parts := Decimals(KeyBytes(uid));
    if uid == [] then Join(parts)
    else
      assert |parts[0]| >= 1;
      Join(parts)
  }

  /** Reading a key back: split at commas and take each piece as a decimal
      number (a piece that is not all digits reads as 0). */
  function ParseKey(s: string): (values: seq<nat>) {
    var parts := Split(s);
    seq(|parts|, k requires 0 <= k < |parts| =>
      if AllDigits(parts[k]) then ParseDecimal(parts[k]) else 0)
  }

  /** The numeric values of `bytes`, in order. */
  function Values(bytes: seq<bv8>): (values: seq<nat>)
    ensures |values| == |bytes|
    ensures forall k :: 0 <= k < |bytes| ==> values[k] == bytes[k] as nat
  {
    seq(|bytes|, k requires 0 <= k < |bytes| => bytes[k] as nat)
  }

  /** The key of a card with at least one byte reads back as the numeric
      values of its first five bytes. */
  lemma ParseKeyUidString(uid: seq<bv8>)
    requires |uid| >= 1
    ensures ParseKey(UidString(uid)) == Values(KeyBytes(uid))
  {
    var b := KeyBytes(uid);
    var parts := Decimals(b);
    SplitJoin(parts);
    forall k | 0 <= k < |parts|
      ensures ParseDecimal(parts[k]) == b[k] as nat
    {
      DecimalRoundTrip(b[k] as nat);
    }
  }

  /** Different numbers have different decimal renderings. */
  lemma DecimalInjective(m: nat, n: nat)
    requires Decimal(m) == Decimal(n)
    ensures m == n
  {
    DecimalRoundTrip(m);
    DecimalRoundTrip(n);
  }

  /** Different byte strings have different decimal renderings. */
  lemma DecimalsInjective(x: seq<bv8>, y: seq<bv8>)
    requires Decimals(x) == Decimals(y)
    ensures x == y
  {
    assert |x| == |y|;
    forall k | 0 <= k < |x|
      ensures x[k] == y[k]
    {
      assert Decimals(x)[k] == Decimals(y)[k];
      DecimalInjective(x[k] as nat, y[k] as nat);
      assert (x[k] as nat) as bv8 == x[k] && (y[k] as nat) as bv8 == y[k];
    }
  }

  /** Two cards share a key only when their first five bytes agree, so the
      key identifies the card. */
  lemma UidStringInjective(a: seq<bv8>, b: seq<bv8>)
    requires UidString(a) == UidString(b)
    ensures KeyBytes(a) == KeyBytes(b)
  {
    if a != [] {
      assert b != [];
      SplitJoin(Decimals(KeyBytes(a)));
      SplitJoin(Decimals(KeyBytes(b)));
      DecimalsInjective(KeyBytes(a), KeyBytes(b));
    }
  }

  /** Decimal renderings used by the worked key. */
  lemma DecimalExamples()
    ensures Decimal(4) == "4" && Decimal(210) == "210" && Decimal(88) == "88"
    ensures Decimal(12) == "12" && Decimal(130) == "130"
  {
    assert Decimal(21) == "21";
    assert Decimal(13) == "13";
  }

  /** One step of a join. */
  lemma JoinCons(head: string, rest: seq<string>)
    requires |rest| >= 1
    ensures Join([head] + rest) == head + "," + Join(rest)
  {
    assert ([head] + rest)[1..] == rest;
  }

  /** Joining the worked key's pieces. */
  lemma JoinExample(parts: seq<string>)
    requires parts == ["4", "210", "88", "12", "130"]
    ensures Join(parts) == "4,210,88,12,130"
  {
    var p4: seq<string> := ["12", "130"];
    var p3: seq<string> := ["88", "12", "130"];
    var p2: seq<string> := ["210", "88", "12", "130"];
    assert Join(p4) == "12,130" by {
      JoinCons("12", ["130"]);
      assert ["12"] + ["130"] == p4;
    }
    assert Join(p3) == "88,12,130" by {
      JoinCons("88", p4);
      assert ["88"] + p4 == p3;
    }
    assert Join(p2) == "210,88,12,130" by {
      JoinCons("210", p3);
      assert ["210"] + p3 == p2;
    }
    JoinCons("4", p2);
    assert ["4"] + p2 == parts;
  }

  /** A worked key. */
  lemma UidStringExample()
    ensures UidString([4, 210, 88, 12, 130]) == "4,210,88,12,130"
  {
    var b: seq<bv8> := [4, 210, 88, 12, 130];
    DecimalExamples();
    assert KeyBytes(b) == b;
    var parts := Decimals(b);
    assert parts == ["4", "210", "88", "12", "130"];
    JoinExample(parts);
  }
}

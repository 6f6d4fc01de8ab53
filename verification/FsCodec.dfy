/** How a directory is kept in a data block: name, NUL, decimal inode index, NUL, for each entry in turn. */
module FsCodec {

  type Byte = x: int | 0 <= x < 256

  type Bytes = seq<Byte>

  datatype Entry = Entry(name: Bytes, index: nat)

  const NUL: Byte := 0
  const ZERO: Byte := 48
  const UINT64: nat := 0x1_0000_0000_0000_0000

  predicate ValidName(name: Bytes) {
    name != [] && NUL !in name
  }

  // ---------- Numbers ----------

  predicate IsDigit(b: Byte) {
    48 <= b <= 57
  }

  predicate AllDigits(s: Bytes) {
    forall b <- s :: IsDigit(b)
  }

  /** to_string */
  function Decimal(n: nat): (s: Bytes)
    ensures s != [] && AllDigits(s) && NUL !in s
  {
    if n < 10 then [ZERO + n] else Decimal(n / 10) + [ZERO + n % 10]
  }

  function Value(s: Bytes): int {
    if s == [] then 0 else Value(s[..|s| - 1]) * 10 + s[|s| - 1] - 48
  }

  function Digits(s: Bytes): (d: Bytes)
    ensures AllDigits(d)
  {
    if s == [] || !IsDigit(s[0]) then [] else [s[0]] + Digits(s[1..])
  }

  lemma {:induction false} ValueBound(s: Bytes)
    requires AllDigits(s)
    ensures Value(s) >= 0
  {
    if s != [] {
      assert IsDigit(s[|s| - 1]);
      ValueBound(s[..|s| - 1]);
    }
  }

  /** Stream extraction of an unsigned 64-bit number: the leading digits, clamped. */
  function Parse(s: Bytes): nat {
    var d := Digits(s);
    ValueBound(d);
    if Value(d) < UINT64 then Value(d) else UINT64 - 1
  }

  lemma {:induction false} ValueDecimal(n: nat)
    ensures Value(Decimal(n)) == n
  {
    if n >= 10 {
      ValueDecimal(n / 10);
      assert Decimal(n)[..|Decimal(n)| - 1] == Decimal(n / 10);
    }
  }

  lemma {:induction false} AllDigitsStay(s: Bytes)
    requires AllDigits(s)
    ensures Digits(s) == s
  {
    if s != [] {
      AllDigitsStay(s[1..]);
    }
  }

  lemma ParseDecimal(n: nat)
    requires n < UINT64
    ensures Parse(Decimal(n)) == n
  {
    ValueDecimal(n);
    AllDigitsStay(Decimal(n));
  }

  // ---------- Entries ----------

  /** strlen within a buffer. */
  function Strlen(s: Bytes): (n: nat)
    ensures n <= |s| && NUL !in s[..n] && (n < |s| ==> s[n] == NUL)
  {
    if s == [] || s[0] == NUL then 0 else 1 + Strlen(s[1..])
  }

  function Drop(s: Bytes, n: nat): (r: Bytes)
    ensures |r| <= |s| && (n > 0 && s != [] ==> |r| < |s|)
  {
    if n <= |s| then s[n..] else []
  }

  function EncodeEntry(e: Entry): Bytes {
    e.name + [NUL] + Decimal(e.index) + [NUL]
  }

  function Encode(dir: seq<Entry>): Bytes {
    if dir == [] then [] else EncodeEntry(dir[0]) + Encode(dir[1..])
  }

  function Decode(s: Bytes): (dir: seq<Entry>)
    ensures forall e <- dir :: ValidName(e.name) && e.index < UINT64
    decreases |s|
  {
    var l := Strlen(s);
    if l == 0 then []
    else
      var rest := Drop(s, l + 1);
      var m := Strlen(rest);
      if m == 0 then [] else [Entry(s[..l], Parse(rest[..m]))] + Decode(Drop(rest, m + 1))
  }

  predicate Encodable(dir: seq<Entry>) {
    forall e <- dir :: ValidName(e.name) && e.index < UINT64
  }

  lemma {:induction false} StrlenUpTo(a: Bytes, rest: Bytes)
    requires NUL !in a
    ensures Strlen(a + [NUL] + rest) == |a|
  {
    var s := a + [NUL] + rest;
    if a != [] {
      StrlenUpTo(a[1..], rest);
      assert s[1..] == a[1..] + [NUL] + rest;
    }
  }

  lemma DecodeOne(e: Entry, tail: Bytes)
    requires ValidName(e.name) && e.index < UINT64
    ensures Decode(EncodeEntry(e) + tail) == [e] + Decode(tail)
  {
    var s := EncodeEntry(e) + tail;
    var digits := Decimal(e.index);
    var rest := digits + [NUL] + tail;
    assert s == e.name + [NUL] + rest;
    StrlenUpTo(e.name, rest);
    assert Drop(s, |e.name| + 1) == rest;
    StrlenUpTo(digits, tail);
    assert Drop(rest, |digits| + 1) == tail;
    assert s[..|e.name|] == e.name && rest[..|digits|] == digits;
    ParseDecimal(e.index);
  }

  lemma {:induction false} DecodePrefix(dir: seq<Entry>, tail: Bytes)
    requires Encodable(dir)
    ensures Decode(Encode(dir) + tail) == dir + Decode(tail)
  {
    hide Decode, EncodeEntry;
    if dir == [] {
      assert Encode(dir) + tail == tail;
    } else {
      assert Encode(dir) + tail == EncodeEntry(dir[0]) + (Encode(dir[1..]) + tail);
      DecodeOne(dir[0], Encode(dir[1..]) + tail);
      DecodePrefix(dir[1..], tail);
      assert dir + Decode(tail) == [dir[0]] + (dir[1..] + Decode(tail));
    }
  }

  /** Reading back a directory that was written into a zeroed block. */
  lemma DirectoryRoundTrip(dir: seq<Entry>, padding: Bytes)
    requires Encodable(dir) && padding != [] && padding[0] == NUL
    ensures Decode(Encode(dir) + padding) == dir
  {
    DecodePrefix(dir, padding);
    assert Decode(padding) == [];
    assert dir + [] == dir;
  }

  /** The characters 0 to 9. */
  ghost predicate OnlyDigits(s: Bytes) {
    forall k :: 0 <= k < |s| ==> '0' as int <= s[k] <= '9' as int
  }

  /** Digits as a number is printed: no leading zero, except for zero itself. */
  ghost predicate IsPrinted(s: Bytes) {
    s != [] && OnlyDigits(s) && (s[0] == '0' as int ==> |s| == 1)
  }

  lemma DecimalStep(v: nat, x: nat)
    requires v > 0 && x < 10
    ensures Decimal(v * 10 + x) == Decimal(v) + [48 + x]
  {
    assert (v * 10 + x) / 10 == v && (v * 10 + x) % 10 == x;
  }

  /** They are the digits printed for the number that they stand for. */
  lemma {:induction false} DecimalExactly(s: Bytes)
    requires IsPrinted(s)
    ensures Value(s) >= 0 && Decimal(Value(s)) == s
    ensures s[0] != '0' as int ==> Value(s) > 0
    decreases |s|
  {
    var n := |s| - 1;
    assert s == s[..n] + [s[n]];
    if n > 0 {
      DecimalExactly(s[..n]);
      DecimalStep(Value(s[..n]), s[n] - 48);
    } else {
      assert s[..0] == [] && Value(s) == s[0] - 48;
    }
  }

  lemma {:induction false} DigitsUpTo(digits: Bytes, rest: Bytes)
    requires OnlyDigits(digits)
    requires rest == [] || !('0' as int <= rest[0] <= '9' as int)
    ensures Digits(digits + rest) == digits
  {
    if digits == [] {
      assert digits + rest == rest;
    } else {
      assert (digits + rest)[1..] == digits[1..] + rest;
      DigitsUpTo(digits[1..], rest);
    }
  }

  /** Only the leading digits count, and a number that does not fit 64 bits becomes the largest one. */
  lemma ParseExactly(digits: Bytes, rest: Bytes)
    requires OnlyDigits(digits)
    requires rest == [] || !('0' as int <= rest[0] <= '9' as int)
    ensures Parse(digits + rest) == (if Value(digits) < UINT64 then Value(digits) else UINT64 - 1)
  {
    DigitsUpTo(digits, rest);
  }

  /** What a block holds as a directory: pairs of terminated texts, a name and a number, up to the first empty
      text in place of either. */
  lemma DecodeExactly(name: Bytes, number: Bytes, rest: Bytes)
    requires NUL !in name && NUL !in number
    ensures name != [] && number != [] ==>
              Decode(name + [NUL] + number + [NUL] + rest) == [Entry(name, Parse(number))] + Decode(rest)
    ensures name == [] || number == [] ==> Decode(name + [NUL] + number + [NUL] + rest) == []
  {
    var s := name + [NUL] + number + [NUL] + rest;
    var tail := number + [NUL] + rest;
    assert s == name + [NUL] + tail;
    StrlenUpTo(name, tail);
    assert Drop(s, |name| + 1) == tail;
    StrlenUpTo(number, rest);
    assert Drop(tail, |number| + 1) == rest;
    assert s[..|name|] == name && tail[..|number|] == number;
  }

  lemma {:induction false} EncodeConcat(a: seq<Entry>, b: seq<Entry>)
    ensures Encode(a + b) == Encode(a) + Encode(b)
  {
    if a == [] {
      assert a + b == b && Encode(a) + Encode(b) == Encode(b);
    } else {
      assert (a + b)[1..] == a[1..] + b;
      EncodeConcat(a[1..], b);
      assert EncodeEntry(a[0]) + (Encode(a[1..]) + Encode(b)) == Encode(a) + Encode(b);
    }
  }

  /** How a directory is laid out: each entry is its name, NUL, its index as it is printed, NUL. */
  lemma EncodeExactly(dir: seq<Entry>, name: Bytes, digits: Bytes)
    requires IsPrinted(digits)
    ensures Value(digits) >= 0
    ensures Encode(dir + [Entry(name, Value(digits))]) == Encode(dir) + (name + [NUL] + digits + [NUL])
    ensures Encode([]) == []
  {
    DecimalExactly(digits);
    var e := Entry(name, Value(digits));
    EncodeConcat(dir, [e]);
    assert EncodeEntry(e) + [] == EncodeEntry(e);
    assert Encode([e]) == EncodeEntry(e);
  }

  /** The directory text, built entry by entry. */
  method Serialize(dir: seq<Entry>) returns (text: Bytes)
    ensures text == Encode(dir)
  {
    text := [];
    for i := 0 to |dir|
      invariant text == Encode(dir[..i])
    {
      EncodeConcat(dir[..i], [dir[i]]);
      assert dir[..i + 1] == dir[..i] + [dir[i]];
      assert Encode([dir[i]]) == EncodeEntry(dir[i]) by {
        assert EncodeEntry(dir[i]) + [] == EncodeEntry(dir[i]);
      }
      text := text + EncodeEntry(dir[i]);
    }
    assert dir[..|dir|] == dir;
  }
}

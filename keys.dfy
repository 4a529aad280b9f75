/** The play keys of mania_monitor_app/__init__.py: the map hash plus the mods
    of a play, summed as unsigned 64-bit integers and written in lower-case
    hexadecimal without the `0x` prefix; the last four hex digits are the
    mods, the rest the map part. */
module Keys {
  import opened Seqs
  import opened Sorting
  import opened Records

  /** `data.astype(np.uint64)`, then `HASH + MODS`, which wraps around at 2^64. */
  const TwoTo64: nat := 0x1_0000_0000_0000_0000

  function KeyValue(r: PlayRow): (k: nat)
    ensures k < TwoTo64
  {
    ((r.hash % TwoTo64) + (r.mods % TwoTo64)) % TwoTo64
  }

  /** The lower-case hex digit of d. */
  function Digit(d: nat): char
    requires d < 16
  {
    if d < 10 then ('0' as int + d) as char else ('a' as int + d - 10) as char
  }

  predicate IsHexDigit(c: char)
  {
    ('0' <= c <= '9') || ('a' <= c <= 'f')
  }

  function DigitValue(c: char): (d: nat)
    requires IsHexDigit(c)
    ensures d < 16
  {
    if '0' <= c <= '9' then (c - '0') as nat else (c - 'a') as nat + 10
  }

  predicate IsHex(s: string)
  {
    forall i :: 0 <= i < |s| ==> IsHexDigit(s[i])
  }

  /** `hex(x)[2:]`: the digits of x, most significant first, without leading
      zeros (a single `0` for zero). */
  function Hex(n: nat): (s: string)
    ensures |s| > 0 && IsHex(s)
    ensures |s| > 1 ==> s[0] != '0'
  {
    if n < 16 then [Digit(n)] else Hex(n / 16) + [Digit(n % 16)]
  }

  /** The value of a string of hex digits. */
  function HexValue(s: string): nat
    requires IsHex(s)
  {
    if s == [] then 0 else HexValue(s[..|s| - 1]) * 16 + DigitValue(s[|s| - 1])
  }

  /** `int(s, 16)` on lower-case digits: no value for an empty string or a
      character that is not a hex digit. */
  function ParseHex(s: string): (v: Option<nat>)
    ensures v.Some? <==> s != [] && IsHex(s)
  {
    if s != [] && IsHex(s) then Some(HexValue(s)) else None
  }

  lemma DigitRoundTrip(d: nat)
    requires d < 16
    ensures IsHexDigit(Digit(d)) && DigitValue(Digit(d)) == d
  {
  }

  lemma HexValueSnoc(s: string, c: char)
    requires IsHex(s) && IsHexDigit(c)
    ensures IsHex(s + [c]) && HexValue(s + [c]) == HexValue(s) * 16 + DigitValue(c)
  {
    assert (s + [c])[..|s|] == s;
  }

  /** Parsing the written key gives back its value. */
  lemma {:induction false} HexRoundTrip(n: nat)
    ensures ParseHex(Hex(n)) == Some(n)
    ensures HexValue(Hex(n)) == n
  {
    DigitRoundTrip(n % 16);
    if n >= 16 {
      HexRoundTrip(n / 16);
      HexValueSnoc(Hex(n / 16), Digit(n % 16));
    } else {
      HexValueSnoc([], Digit(n));
      assert [] + [Digit(n)] == Hex(n);
    }
  }

  /** Distinct values give distinct keys. */
  lemma HexInjective(a: nat, b: nat)
    ensures Hex(a) == Hex(b) <==> a == b
  {
    HexRoundTrip(a);
    HexRoundTrip(b);
  }

  /** `key[-4:]`. */
  function LastFour(key: string): string
  {
    if |key| >= 4 then key[|key| - 4..] else key
  }

  /** `key[:-4]`. */
  function AllButLastFour(key: string): string
  {
    if |key| >= 4 then key[..|key| - 4] else []
  }

  lemma HexSnoc(n: nat)
    requires n >= 16
    ensures Hex(n) == Hex(n / 16) + [Digit(n % 16)]
  {
  }

  lemma HexShort(n: nat)
    requires n < 65536
    ensures |Hex(n)| <= 4
  {
    if n >= 16 {
      HexSnoc(n);
      if n / 16 >= 16 {
        HexSnoc(n / 16);
        if n / 16 / 16 >= 16 {
          HexSnoc(n / 16 / 16);
          assert n / 16 / 16 / 16 < 16;
          assert |Hex(n / 16 / 16 / 16)| == 1;
        }
      }
    }
  }

  /** The value of four hex digits. */
  lemma HexValueFour(a: nat, b: nat, c: nat, d: nat)
    requires a < 16 && b < 16 && c < 16 && d < 16
    ensures IsHex([Digit(a), Digit(b), Digit(c), Digit(d)])
    ensures HexValue([Digit(a), Digit(b), Digit(c), Digit(d)]) == ((a * 16 + b) * 16 + c) * 16 + d
  {
    DigitRoundTrip(a);
    DigitRoundTrip(b);
    DigitRoundTrip(c);
    DigitRoundTrip(d);
    var tail := [Digit(a), Digit(b), Digit(c), Digit(d)];
    var t1, t2, t3 := tail[..1], tail[..2], tail[..3];
    assert t1[..0] == [] && t2[..1] == t1 && t3[..2] == t2 && tail[..3] == t3;
    assert HexValue(t1) == a;
    assert HexValue(t2) == a * 16 + b;
    assert HexValue(t3) == (a * 16 + b) * 16 + c;
  }

  /** The last four digits of a value of at least 65536. */
  lemma HexFour(k: nat)
    requires k >= 65536
    ensures Hex(k) == Hex(k / 16 / 16 / 16 / 16) + [Digit(k / 16 / 16 / 16 % 16), Digit(k / 16 / 16 % 16), Digit(k / 16 % 16), Digit(k % 16)]
  {
    HexSnoc(k);
    HexSnoc(k / 16);
    HexSnoc(k / 16 / 16);
    HexSnoc(k / 16 / 16 / 16);
  }

  /** A value of at least 65536 is written as the key of its quotient by
      65536 followed by four digits. */
  lemma HexLong(k: nat)
    requires k >= 65536
    ensures |Hex(k)| >= 4
    ensures Hex(k)[..|Hex(k)| - 4] == Hex(k / 65536)
    ensures ParseHex(Hex(k)[|Hex(k)| - 4..]) == Some(k % 65536)
  {
    var k1, k2, k3 := k / 16, k / 16 / 16, k / 16 / 16 / 16;
    DivModFour(k);
    HexFour(k);
    var tail := [Digit(k3 % 16), Digit(k2 % 16), Digit(k1 % 16), Digit(k % 16)];
    assert Hex(k)[|Hex(k)| - 4..] == tail;
    HexValueFour(k3 % 16, k2 % 16, k1 % 16, k % 16);
  }

  lemma DivModFour(k: nat)
    ensures k / 16 / 16 / 16 / 16 == k / 65536
    ensures (((k / 16 / 16 / 16) % 16 * 16 + (k / 16 / 16) % 16) * 16 + (k / 16) % 16) * 16 + k % 16 == k % 65536
  {
    var q1, q2, q3, q4 := k / 16, k / 16 / 16, k / 16 / 16 / 16, k / 16 / 16 / 16 / 16;
    var r0, r1, r2, r3 := k % 16, q1 % 16, q2 % 16, q3 % 16;
    assert k == q1 * 16 + r0 && q1 == q2 * 16 + r1 && q2 == q3 * 16 + r2 && q3 == q4 * 16 + r3;
    assert k == q4 * 65536 + ((r3 * 16 + r2) * 16 + r1) * 16 + r0;
    assert 0 <= ((r3 * 16 + r2) * 16 + r1) * 16 + r0 < 65536;
  }

  /** The decoding of a key: its last four digits are the value modulo
      65536 (the mods), and what stands before them is the key of the value
      divided by 65536 (the map part), or nothing for a value below 65536. */
  lemma KeyDecode(k: nat)
    ensures ParseHex(LastFour(Hex(k))) == Some(k % 65536)
    ensures k >= 65536 ==> AllButLastFour(Hex(k)) == Hex(k / 65536)
    ensures k < 65536 ==> AllButLastFour(Hex(k)) == []
  {
    if k < 65536 {
      HexShort(k);
      HexRoundTrip(k);
      if |Hex(k)| == 4 {
        assert Hex(k)[0..] == Hex(k);
      }
    } else {
      HexLong(k);
    }
  }

  /** The mod suffix: `DT` for bit 0, `HT` for bit 1, written as ` +DTHT`
      and left out when neither bit is set. */
  function ModsLabel(mods: nat): string
  {
    var s := (if mods % 2 == 1 then "DT" else "") + (if (mods / 2) % 2 == 1 then "HT" else "");
    if |s| != 0 then " +" + s else ""
  }

  /** The label is empty exactly when neither of the two low bits is set,
      and names each set bit. */
  lemma ModsLabelMeaning(mods: nat)
    ensures ModsLabel(mods) == "" <==> mods % 4 == 0
    ensures mods % 4 == 1 ==> ModsLabel(mods) == " +DT"
    ensures mods % 4 == 2 ==> ModsLabel(mods) == " +HT"
    ensures mods % 4 == 3 ==> ModsLabel(mods) == " +DTHT"
  {
  }

  /** `path.split('/')[-1]`: what follows the last slash. */
  function LastComponent(path: string): (name: string)
    ensures '/' !in name
    ensures |name| <= |path| && name == path[|path| - |name|..]
    ensures |name| < |path| ==> path[|path| - |name| - 1] == '/'
  {
    if path == [] || path[|path| - 1] == '/' then []
    else
      var n := |path| - 1;
      var prev := LastComponent(path[..n]);
      assert path[..n][n - |prev|..] == path[n - |prev|..n];
      prev + [path[n]]
  }

  /** Lexicographic order on character codes, as numpy sorts strings. */
  predicate StrLess(a: string, b: string)
  {
    if a == [] then b != []
    else if b == [] then false
    else if a[0] != b[0] then a[0] < b[0]
    else StrLess(a[1..], b[1..])
  }

  lemma {:induction false} StrLessIrreflexive(a: string)
    ensures !StrLess(a, a)
  {
    if a != [] {
      StrLessIrreflexive(a[1..]);
    }
  }

  lemma {:induction false} StrLessTransitive(a: string, b: string, c: string)
    requires StrLess(a, b) && StrLess(b, c)
    ensures StrLess(a, c)
  {
    if a != [] && b != [] && c != [] && a[0] == b[0] && b[0] == c[0] {
      StrLessTransitive(a[1..], b[1..], c[1..]);
    }
  }

  lemma {:induction false} StrLessTrichotomous(a: string, b: string)
    ensures a == b || StrLess(a, b) || StrLess(b, a)
  {
    if a != [] && b != [] && a[0] == b[0] {
      StrLessTrichotomous(a[1..], b[1..]);
      if a[1..] == b[1..] {
        assert a == [a[0]] + a[1..] && b == [b[0]] + b[1..];
      }
    }
  }

  lemma StrLessIsStrictTotal()
    ensures Transitive(StrLess) && Trichotomous(StrLess)
    ensures forall a :: !StrLess(a, a)
  {
    forall a, b, c | StrLess(a, b) && StrLess(b, c) ensures StrLess(a, c) {
      StrLessTransitive(a, b, c);
    }
    forall a, b ensures a == b || StrLess(a, b) || StrLess(b, a) {
      StrLessTrichotomous(a, b);
    }
    forall a ensures !StrLess(a, a) {
      StrLessIrreflexive(a);
    }
  }

  /** The key of every row. */
  function KeysOf(data: seq<PlayRow>): seq<string>
  {
    MapSeq((r: PlayRow) => Hex(KeyValue(r)), data)
  }

  /** `np.setdiff1d(vhex(np.unique(HASH + MODS)), map_list_data)`: the keys
      of the data that are not listed yet, each once, in string order. */
  function NewKeys(data: seq<PlayRow>, listed: seq<string>): (keys: seq<string>)
    ensures StrictlySorted(keys, StrLess)
    ensures forall k :: k in keys <==> k in KeysOf(data) && k !in listed
  {
    StrLessIsStrictTotal();
    var unique := Unique(KeysOf(data), StrLess);
    var m := MapSeq((k: string) => k !in listed, unique);
    MaskSorted(unique, m, StrLess);
    assert forall k :: k in unique && k !in listed ==> k in Mask(unique, m) by {
      forall k | k in unique && k !in listed ensures k in Mask(unique, m) {
        var i :| 0 <= i < |unique| && unique[i] == k;
        InMask(unique, m, i);
      }
    }
    assert forall k :: k in Mask(unique, m) ==> k !in listed by {
      forall k | k in Mask(unique, m) ensures k !in listed {
        MaskFrom(unique, m, k);
      }
    }
    Mask(unique, m)
  }

  /** A mask keeps a strictly sorted sequence strictly sorted. */
  lemma {:induction false} MaskSorted<T>(s: seq<T>, m: seq<bool>, lt: (T, T) -> bool)
    requires |s| == |m| && StrictlySorted(s, lt)
    ensures StrictlySorted(Mask(s, m), lt)
  {
    if s != [] {
      var n := |s| - 1;
      assert StrictlySorted(s[..n], lt);
      MaskSorted(s[..n], m[..n], lt);
      var p := Mask(s[..n], m[..n]);
      forall k | 0 <= k < |p| ensures lt(p[k], s[n]) {
        assert p[k] in p;
        var i :| 0 <= i < n && s[..n][i] == p[k];
      }
    }
  }
}

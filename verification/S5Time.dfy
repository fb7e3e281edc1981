/** The classic two-byte S5TIME value (codec/scalar.go): three BCD digits and a time base. */
module S5Time {
  import opened Bytes
  import opened Errors

  const MILLISECOND := 1_000_000 // durations are nanoseconds

  const BASES: seq<int> := [10 * MILLISECOND, 100 * MILLISECOND, 1000 * MILLISECOND, 10_000 * MILLISECOND]

  /** The tick of a base: ten milliseconds, and ten times as long with every step. */
  function Tick(base: nat): int {
    if base == 0 then 10_000_000 else 10 * Tick(base - 1)
  }

  lemma {:induction false} TickOfBase(base: nat)
    requires base <= 3
    ensures BASES[base] == Tick(base) > 0
  {
    assert Tick(0) == 10_000_000 && Tick(1) == 100_000_000 && Tick(2) == 1_000_000_000 && Tick(3) == 10_000_000_000;
  }

  /** The fields of a raw value: two reserved bits, the base, three digits. */
  predicate IsS5Time(raw: U16, base: nat, count: nat) {
    && base <= 3 && count <= 999
    && raw == 0x1000 * base + 0x100 * (count / 100) + 0x10 * (count / 10 % 10) + count % 10
  }

  function DecodeS5Time(raw: U16): Option<int> {
    if raw / 0x4000 != 0 then None
    else
      var hundreds, tens, ones := raw / 0x100 % 16, raw / 0x10 % 16, raw % 16;
      if hundreds > 9 || tens > 9 || ones > 9 then None
      else Some((hundreds * 100 + tens * 10 + ones) * BASES[raw / 0x1000 % 4])
  }

  /** Where the fields of a packed value are found again. */
  lemma {:induction false} Unpacked(raw: U16, base: nat, hundreds: nat, tens: nat, ones: nat)
    requires base <= 3 && hundreds <= 9 && tens <= 9 && ones <= 9
    requires raw == 0x1000 * base + 0x100 * hundreds + 0x10 * tens + ones
    ensures raw / 0x1000 == base && raw / 0x4000 == 0
    ensures raw / 0x100 % 16 == hundreds && raw / 0x10 % 16 == tens && raw % 16 == ones
  {
    QuotientOf(raw, 0x1000, base, 0x100 * hundreds + 0x10 * tens + ones);
    QuotientOf(raw, 0x100, 16 * base + hundreds, 0x10 * tens + ones);
    QuotientOf(16 * base + hundreds, 16, base, hundreds);
    QuotientOf(raw, 0x10, 0x100 * base + 16 * hundreds + tens, ones);
    QuotientOf(0x100 * base + 16 * hundreds + tens, 16, 16 * base + hundreds, tens);
  }

  lemma {:induction false} Digits(count: nat, hundreds: nat, tens: nat, ones: nat)
    requires hundreds <= 9 && tens <= 9 && ones <= 9
    ensures count == hundreds * 100 + tens * 10 + ones <==>
      count <= 999 && count / 100 == hundreds && count / 10 % 10 == tens && count % 10 == ones
  {
    if count == hundreds * 100 + tens * 10 + ones {
      QuotientOf(count, 100, hundreds, tens * 10 + ones);
      QuotientOf(count, 10, hundreds * 10 + tens, ones);
      QuotientOf(hundreds * 10 + tens, 10, hundreds, tens);
    }
  }

  /** The decoder reads the fields that were packed ... */
  lemma {:induction false} DecodeMeaning(raw: U16, base: nat, count: nat)
    requires IsS5Time(raw, base, count)
    ensures DecodeS5Time(raw) == Some(count * Tick(base)) && raw / 0x1000 == base
  {
    var hundreds, tens, ones := count / 100, count / 10 % 10, count % 10;
    TickOfBase(base);
    Digits(count, hundreds, tens, ones);
    Unpacked(raw, base, hundreds, tens, ones);
    QuotientOf(base, 4, 0, base);
  }

  /** ... and accepts nothing else. */
  lemma {:induction false} DecodedFields(raw: U16) returns (base: nat, count: nat)
    requires DecodeS5Time(raw).Some?
    ensures IsS5Time(raw, base, count) && DecodeS5Time(raw) == Some(count * Tick(base)) && raw / 0x1000 == base
  {
    var hundreds, tens, ones := raw / 0x100 % 16, raw / 0x10 % 16, raw % 16;
    base, count := raw / 0x1000, hundreds * 100 + tens * 10 + ones;
    Repacked(raw);
    TickOfBase(base);
    Digits(count, hundreds, tens, ones);
    QuotientOf(base, 4, 0, base);
  }

  lemma {:induction false} Repacked(raw: U16)
    requires raw / 0x4000 == 0
    ensures raw == 0x1000 * (raw / 0x1000) + 0x100 * (raw / 0x100 % 16) + 0x10 * (raw / 0x10 % 16) + raw % 16
    ensures raw / 0x1000 <= 3
  {
    var a, b, c := raw / 16, raw / 0x100, raw / 0x1000;
    QuotientOf(raw, 0x100, a / 16, raw % 16 + 16 * (a % 16));
    QuotientOf(raw, 0x1000, b / 16, raw % 0x100 + 0x100 * (b % 16));
  }

  /** A duration a base can express. */
  predicate Expressible(value: int, base: nat)
    requires base <= 3
  {
    TickOfBase(base);
    value >= 0 && value % Tick(base) == 0 && value / Tick(base) <= 999
  }

  /** EncodeS5Time: the first base, finest first, that expresses the value exactly. */
  method EncodeS5Time(value: int) returns (r: Option<U16>)
    ensures r.Some? <==> exists raw: U16 :: DecodeS5Time(raw) == Some(value)
    ensures r.Some? ==> DecodeS5Time(r.value) == Some(value)
    ensures r.Some? ==> forall raw: U16 :: DecodeS5Time(raw) == Some(value) ==> r.value / 0x1000 <= raw / 0x1000
  {
    hide DecodeS5Time, Tick;
    if value < 0 {
      NoNegative(value);
      return None;
    }
    for index := 0 to |BASES|
      invariant forall base: nat | base < index :: !Expressible(value, base)
    {
      var base := BASES[index];
      TickOfBase(index);
      if value % base != 0 {
        continue;
      }
      var count := value / base;
      if count > 999 {
        continue;
      }
      var raw: U16 := 0x1000 * index + 0x100 * (count / 100) + 0x10 * (count / 10 % 10) + count % 10;
      DecodeMeaning(raw, index, count);
      assert count * Tick(index) == value;
      forall other: U16 | DecodeS5Time(other) == Some(value)
        ensures index <= other / 0x1000
      {
        BaseExpresses(other, value);
      }
      assert raw / 0x1000 == index;
      return Some(raw);
    }
    forall other: U16
      ensures DecodeS5Time(other) != Some(value)
    {
      if DecodeS5Time(other) == Some(value) {
        BaseExpresses(other, value);
      }
    }
    return None;
  }

  lemma {:induction false} NoNegative(value: int)
    requires value < 0
    ensures forall raw: U16 :: DecodeS5Time(raw) != Some(value)
  {
    forall raw: U16
      ensures DecodeS5Time(raw) != Some(value)
    {
      if DecodeS5Time(raw).Some? {
        var base, count := DecodedFields(raw);
        TickOfBase(base);
        assert count * Tick(base) >= 0;
      }
    }
  }

  /** Whatever decodes to a duration expresses it with its own base. */
  lemma {:induction false} BaseExpresses(raw: U16, value: int)
    requires DecodeS5Time(raw) == Some(value)
    ensures raw / 0x1000 <= 3 && Expressible(value, raw / 0x1000)
  {
    var base, count := DecodedFields(raw);
    assert raw / 0x1000 == base;
    TickOfBase(base);
    Multiple(count, Tick(base));
  }

  lemma {:induction false} Multiple(count: nat, base: int)
    requires base > 0
    ensures count * base >= 0 && count * base % base == 0 && count * base / base == count
  {
    QuotientOf(count * base, base, count, 0);
  }
}

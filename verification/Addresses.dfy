/** The text form of addresses (address.go), over ASCII text: the grammar the parser
    accepts, the one spelling the formatter emits, and how they undo each other. */
module Addresses {
  import opened Bytes
  import opened Errors
  import opened Items

  // --------------------------------------------------------------- numbers

  predicate IsDigit(c: char) {
    '0' <= c <= '9'
  }

  predicate AllDigits(text: string) {
    forall i | 0 <= i < |text| :: IsDigit(text[i])
  }

  function DigitValue(c: char): nat
    requires IsDigit(c)
  {
    c as int - 48
  }

  function DigitChar(value: nat): (c: char)
    requires value < 10
    ensures IsDigit(c) && DigitValue(c) == value
  {
    (48 + value) as char
  }

  predicate IsNumber(text: string) {
    text != "" && AllDigits(text)
  }

  /** The decimal spelling without leading zeros. */
  function Decimal(value: nat): (text: string)
    ensures |text| >= 1 && AllDigits(text)
  {
    if value < 10 then [DigitChar(value)] else Decimal(value / 10) + [DigitChar(value % 10)]
  }

  function ValueOf(digits: string): nat
    requires AllDigits(digits)
  {
    if digits == "" then 0 else 10 * ValueOf(digits[..|digits| - 1]) + DigitValue(digits[|digits| - 1])
  }

  lemma {:induction false} DecimalRoundTrip(value: nat)
    ensures ValueOf(Decimal(value)) == value
  {
    if value >= 10 {
      DecimalRoundTrip(value / 10);
      assert Decimal(value)[..|Decimal(value)| - 1] == Decimal(value / 10);
    } else {
      assert Decimal(value)[..0] == "";
    }
  }

  /** Where the run of digits from an offset ends. */
  function DigitsEnd(text: string, at: nat): (end: nat)
    requires at <= |text|
    ensures at <= end <= |text| && AllDigits(text[at..end])
    ensures end < |text| ==> !IsDigit(text[end])
    decreases |text| - at
  {
    if at < |text| && IsDigit(text[at]) then
      var end := DigitsEnd(text, at + 1);
      assert text[at..end] == [text[at]] + text[at + 1..end];
      end
    else at
  }

  datatype Number = Number(value: nat, next: nat)

  function ParseNumber(text: string, at: nat): (number: Option<Number>)
    requires at <= |text|
    ensures number.Some? ==> at < number.value.next <= |text|
  {
    var end := DigitsEnd(text, at);
    if end == at then None else Some(Number(ValueOf(text[at..end]), end))
  }

  /** Any digits are read as the number they spell, up to whatever follows them. */
  lemma {:induction false} DigitsReadBack(text: string, at: nat, digits: string, rest: string)
    requires at <= |text| && IsNumber(digits) && text[at..] == digits + rest
    requires rest != "" ==> !IsDigit(rest[0])
    ensures
      var next := at + |digits|;
      ParseNumber(text, at) == Some(Number(ValueOf(digits), next)) && next <= |text| && text[next..] == rest
  {
    var next := at + |digits|;
    assert text[at..][..|digits|] == digits;
    assert text[next..] == text[at..][|digits|..] == rest;
    assert forall i | at <= i < next :: text[i] == digits[i - at];
    RunEnds(text, at, next);
    assert text[at..next] == digits;
  }

  /** A spelled number is read back, up to whatever follows it. */
  lemma {:induction false} NumberReadBack(text: string, at: nat, value: nat, rest: string)
    requires at <= |text| && text[at..] == Decimal(value) + rest
    requires rest != "" ==> !IsDigit(rest[0])
    ensures
      var next := at + |Decimal(value)|;
      ParseNumber(text, at) == Some(Number(value, next)) && next <= |text| && text[next..] == rest
  {
    hide ParseNumber;
    DigitsReadBack(text, at, Decimal(value), rest);
    DecimalRoundTrip(value);
  }

  /** What a number is read from. */
  lemma {:induction false} NumberFound(text: string, at: nat)
    requires at <= |text| && ParseNumber(text, at).Some?
    ensures
      var Number(value, next) := ParseNumber(text, at).value;
      IsNumber(text[at..next]) && ValueOf(text[at..next]) == value && text[at..] == text[at..next] + text[next..]
  {
  }

  lemma {:induction false} RunEnds(text: string, at: nat, next: nat)
    requires at <= next <= |text| && (forall i | at <= i < next :: IsDigit(text[i]))
    requires next < |text| ==> !IsDigit(text[next])
    ensures DigitsEnd(text, at) == next
    decreases next - at
  {
    if at < next {
      RunEnds(text, at + 1, next);
    }
  }

  // --------------------------------------------------------------- grammar

  predicate IsSpace(c: char) {
    c in {' ', '\t', '\n', '\r', 11 as char, 12 as char}
  }

  function TrimLeft(text: string): string {
    if text != "" && IsSpace(text[0]) then TrimLeft(text[1..]) else text
  }

  function TrimRight(text: string): string {
    if text != "" && IsSpace(text[|text| - 1]) then TrimRight(text[..|text| - 1]) else text
  }

  function Upper(text: string): (upper: string)
    ensures |upper| == |text|
  {
    seq(|text|, i requires 0 <= i < |text| =>
          if 'a' <= text[i] <= 'z' then (text[i] as int - 32) as char else text[i])
  }

  function Normalized(input: string): string {
    var value := Upper(TrimRight(TrimLeft(input)));
    if value != "" && value[0] == '%' then value[1..] else value
  }

  /** What the four patterns of the source capture. */
  datatype Form =
    | DbForm(db: nat, width: char, offset: nat, bit: Option<nat>)
    | MemoryForm(area: Area, size: Option<char>, offset: nat, bit: Option<nat>)
    | TimerForm(index: nat)
    | CounterForm(index: nat)
    | NoForm

  datatype Tail = Tail(offset: nat, bit: Option<nat>)

  /** A number to the end of the text, with an optional bit suffix. */
  function ParseTail(text: string, at: nat): Option<Tail>
    requires at <= |text|
  {
    match ParseNumber(text, at)
    case None => None
    case Some(Number(offset, next)) =>
      if next == |text| then Some(Tail(offset, None))
      else if text[next] != '.' then None
      else
        match ParseNumber(text, next + 1)
        case None => None
        case Some(Number(bit, end)) => if end == |text| then Some(Tail(offset, Some(bit))) else None
  }

  predicate IsWidth(c: char) {
    c in {'X', 'B', 'W', 'D'}
  }

  function DbFormOf(text: string): (form: Form)
    ensures form.NoForm? || form.DbForm?
  {
    if |text| < 2 || text[..2] != "DB" then NoForm
    else
      match ParseNumber(text, 2)
      case None => NoForm
      case Some(Number(db, next)) =>
        if |text| - next < 4 || text[next..next + 3] != ".DB" || !IsWidth(text[next + 3]) then NoForm
        else
          match ParseTail(text, next + 4)
          case None => NoForm
          case Some(Tail(offset, bit)) => DbForm(db, text[next + 3], offset, bit)
  }

  function AreaOfLetter(c: char): Option<Area> {
    match c
    case 'I' => Some(Input)
    case 'E' => Some(Input)
    case 'Q' => Some(Output)
    case 'A' => Some(Output)
    case 'M' => Some(Marker)
    case _ => None
  }

  function MemoryFormOf(text: string): (form: Form)
    ensures form.NoForm? || form.MemoryForm?
  {
    if |text| < 2 then NoForm
    else
      match AreaOfLetter(text[0])
      case None => NoForm
      case Some(area) =>
        var width := if IsWidth(text[1]) then Some(text[1]) else None;
        match ParseTail(text, if width.Some? then 2 else 1)
        case None => NoForm
        case Some(Tail(offset, bit)) => MemoryForm(area, width, offset, bit)
  }

  /** A prefix and a number to the end. */
  function IndexAfter(text: string, prefix: string): Option<nat> {
    if |text| < |prefix| || text[..|prefix|] != prefix then None
    else
      match ParseNumber(text, |prefix|)
      case None => None
      case Some(Number(index, next)) => if next == |text| then Some(index) else None
  }

  function FormOf(text: string): Form {
    var db := DbFormOf(text);
    if !db.NoForm? then db
    else
      var memory := MemoryFormOf(text);
      if !memory.NoForm? then memory
      else if IndexAfter(text, "T").Some? then TimerForm(IndexAfter(text, "T").value)
      else if IndexAfter(text, "TM").Some? then TimerForm(IndexAfter(text, "TM").value)
      else if IndexAfter(text, "C").Some? then CounterForm(IndexAfter(text, "C").value)
      else if IndexAfter(text, "CT").Some? then CounterForm(IndexAfter(text, "CT").value)
      else if IndexAfter(text, "Z").Some? then CounterForm(IndexAfter(text, "Z").value)
      else NoForm
  }

  datatype Located = Located(address: Address, transport: TransportType)

  /** parseWidth: the transport, and the bit it may come with. */
  function ParseWidth(width: Option<char>, bit: Option<nat>): Option<(TransportType, Byte)> {
    match width
    case Some('X') => if bit.Some? && bit.value <= 7 then Some((TransportBit, bit.value)) else None
    case Some(other) =>
      if bit.Some? then None
      else if other == 'B' then Some((TransportByte, 0))
      else if other == 'W' then Some((TransportWord, 0))
      else if other == 'D' then Some((TransportDWord, 0))
      else None
    case None => None
  }

  function LocateByte(area: Area, db: U16, width: Option<char>, offset: nat, bit: Option<nat>): Result<Located> {
    if offset > MAX_U32 then Err(InvalidError())
    else
      match ParseWidth(width, bit)
      case None => Err(InvalidError())
      case Some((transport, bit)) =>
        var address := Address(area, db, offset, bit);
        var check := ValidateItemAddress(address, transport);
        if check.Fail? then Err(check.error) else Ok(Located(address, transport))
  }

  function LocateForm(form: Form): Result<Located> {
    match form
    case DbForm(db, width, offset, bit) =>
      if db == 0 || db > MAX_U16 then Err(InvalidError()) else LocateByte(DB, db, Some(width), offset, bit)
    case MemoryForm(area, width, offset, bit) =>
      LocateByte(area, 0, if width.None? && bit.Some? then Some('X') else width, offset, bit)
    case TimerForm(index) =>
      if index > MAX_WIRE_ADDRESS then Err(InvalidError()) else Ok(Located(Address(Timer, 0, index, 0), TransportTimer))
    case CounterForm(index) =>
      if index > MAX_WIRE_ADDRESS then Err(InvalidError()) else Ok(Located(Address(Counter, 0, index, 0), TransportCounter))
    case NoForm => Err(InvalidError())
  }

  function ParseAddress(input: string): Result<Located> {
    var value := Normalized(input);
    if value == "" || exists i :: 0 <= i < |value| && value[i] in {' ', '\t', '\r', '\n'} then Err(InvalidError())
    else LocateForm(FormOf(value))
  }

  // ---------------------------------------------------------------- printer

  function AreaLetter(area: Area): string {
    match area
    case Input => "I"
    case Output => "Q"
    case Marker => "M"
    case _ => ""
  }

  function FormatAddress(address: Address, transport: TransportType): Result<string> {
    var check := ValidateItemAddress(address, transport);
    if check.Fail? then Err(check.error)
    else if address.area == Timer then Ok("T" + Decimal(address.offset))
    else if address.area == Counter then Ok("C" + Decimal(address.offset))
    else
      var prefix := if address.area == DB then "DB" + Decimal(address.dbNumber) + ".DB" else AreaLetter(address.area);
      match transport
      case TransportBit => Ok(prefix + "X" + Decimal(address.offset) + "." + Decimal(address.bit))
      case TransportByte => Ok(prefix + "B" + Decimal(address.offset))
      case TransportWord => Ok(prefix + "W" + Decimal(address.offset))
      case TransportDWord | TransportReal => Ok(prefix + "D" + Decimal(address.offset))
      case _ => Err(InvalidError())
  }

  /** Text has one spelling for double words and reals. */
  function TextTransport(transport: TransportType): TransportType {
    if transport == TransportReal then TransportDWord else transport
  }

  predicate IsClean(c: char) {
    IsDigit(c) || c == '.' || 'A' <= c <= 'Z'
  }

  predicate Clean(text: string) {
    forall i | 0 <= i < |text| :: IsClean(text[i])
  }

  /** Normalisation leaves canonical spellings alone. */
  lemma {:induction false} CleanIsNormal(text: string)
    requires Clean(text) && text != ""
    ensures Normalized(text) == text
    ensures !exists i :: 0 <= i < |text| && text[i] in {' ', '\t', '\r', '\n'}
  {
    assert IsClean(text[0]) && IsClean(text[|text| - 1]);
    assert forall i | 0 <= i < |text| :: IsClean(text[i]) && Upper(text)[i] == text[i];
    assert Upper(text) == text;
  }

  // ---------------------------------------------------- what a text means

  /** The free parts of a spelling. */
  datatype Spelling = Spelling(letter: char, db: string, offset: string, bit: Option<string>)

  function SuffixText(bit: Option<string>): string {
    if bit.Some? then "." + bit.value else ""
  }

  function SuffixValue(bit: Option<string>): Option<nat>
    requires bit.Some? ==> IsNumber(bit.value)
  {
    if bit.Some? then Some(ValueOf(bit.value)) else None
  }

  /** English and German letters name the same areas. */
  predicate LetterNames(letter: char, area: Area) {
    || ((letter == 'I' || letter == 'E') && area == Input)
    || ((letter == 'Q' || letter == 'A') && area == Output)
    || (letter == 'M' && area == Marker)
  }

  function WidthChar(transport: TransportType): char {
    match transport
    case TransportBit => 'X'
    case TransportByte => 'B'
    case TransportWord => 'W'
    case _ => 'D'
  }

  predicate HasWidth(transport: TransportType) {
    || transport == TransportBit || transport == TransportByte
    || transport == TransportWord || transport == TransportDWord
  }

  /** This upper-case text, with these free parts, spells this address in this width. Any
      digits do, leading zeros included; the X of a bit outside data blocks may be left out. */
  predicate Denotes(text: string, spelling: Spelling, address: Address, transport: TransportType) {
    && ValidateItemAddress(address, transport).Pass?
    && IsNumber(spelling.offset) && ValueOf(spelling.offset) == address.offset
    && (spelling.bit.Some? ==> IsNumber(spelling.bit.value) && ValueOf(spelling.bit.value) == address.bit)
    && if address.area == Timer then text == "T" + spelling.offset || text == "TM" + spelling.offset
       else if address.area == Counter then
         text == "C" + spelling.offset || text == "CT" + spelling.offset || text == "Z" + spelling.offset
       else
         && HasWidth(transport) && (spelling.bit.Some? <==> transport == TransportBit)
         && var tail := spelling.offset + SuffixText(spelling.bit);
            if address.area == DB then
              && IsNumber(spelling.db) && ValueOf(spelling.db) == address.dbNumber
              && text == "DB" + spelling.db + ".DB" + [WidthChar(transport)] + tail
            else
              && LetterNames(spelling.letter, address.area)
              && (text == [spelling.letter, WidthChar(transport)] + tail
                  || (transport == TransportBit && text == [spelling.letter] + tail))
  }

  lemma {:induction false} TailSpelled(text: string, at: nat, offset: string, bit: Option<string>)
    requires at <= |text| && IsNumber(offset) && (bit.Some? ==> IsNumber(bit.value))
    requires text[at..] == offset + SuffixText(bit)
    ensures ParseTail(text, at) == Some(Tail(ValueOf(offset), SuffixValue(bit)))
  {
    hide ParseNumber, ValueOf;
    DigitsReadBack(text, at, offset, SuffixText(bit));
    if bit.Some? {
      var next := at + |offset|;
      assert text[next..] == SuffixText(bit) && text[next] == SuffixText(bit)[0];
      assert text[next + 1..] == SuffixText(bit)[1..] == bit.value + "";
      DigitsReadBack(text, next + 1, bit.value, "");
    }
  }

  lemma {:induction false} TailFound(text: string, at: nat) returns (offset: string, bit: Option<string>)
    requires at <= |text| && ParseTail(text, at).Some?
    ensures IsNumber(offset) && (bit.Some? ==> IsNumber(bit.value))
    ensures text[at..] == offset + SuffixText(bit)
    ensures ParseTail(text, at) == Some(Tail(ValueOf(offset), SuffixValue(bit)))
  {
    hide ParseNumber, ValueOf;
    var next := ParseNumber(text, at).value.next;
    NumberFound(text, at);
    offset := text[at..next];
    if next == |text| {
      bit := None;
    } else {
      var end := ParseNumber(text, next + 1).value.next;
      NumberFound(text, next + 1);
      bit := Some(text[next + 1..end]);
      assert text[next..] == [text[next]] + text[next + 1..];
      assert text[end..] == "";
      assert text[next + 1..] == text[next + 1..end];
    }
  }

  lemma {:induction false} DbSpelled(text: string, db: string, width: char, offset: string, bit: Option<string>)
    requires IsWidth(width) && IsNumber(db) && IsNumber(offset) && (bit.Some? ==> IsNumber(bit.value))
    requires text == "DB" + db + ".DB" + [width] + (offset + SuffixText(bit))
    ensures FormOf(text) == DbForm(ValueOf(db), width, ValueOf(offset), SuffixValue(bit))
  {
    hide ParseNumber, ParseTail, ValueOf;
    var tail := offset + SuffixText(bit);
    var middle, next := ".DB" + [width] + tail, 2 + |db|;
    assert text[..2] == "DB" && text[2..] == db + middle;
    DigitsReadBack(text, 2, db, middle);
    assert text[next..next + 3] == text[next..][..3] == ".DB";
    assert text[next + 3] == text[next..][3] == width;
    assert text[next + 4..] == text[next..][4..] == tail;
    TailSpelled(text, next + 4, offset, bit);
  }

  lemma {:induction false} DbFound(text: string) returns (db: string, offset: string, bit: Option<string>)
    requires DbFormOf(text).DbForm?
    ensures IsNumber(db) && IsNumber(offset) && (bit.Some? ==> IsNumber(bit.value))
    ensures text == "DB" + db + ".DB" + [DbFormOf(text).width] + (offset + SuffixText(bit))
    ensures IsWidth(DbFormOf(text).width)
    ensures DbFormOf(text) == DbForm(ValueOf(db), DbFormOf(text).width, ValueOf(offset), SuffixValue(bit))
  {
    hide ParseNumber, ParseTail, ValueOf;
    var next := ParseNumber(text, 2).value.next;
    NumberFound(text, 2);
    db := text[2..next];
    offset, bit := TailFound(text, next + 4);
    assert text == text[..2] + text[2..next] + text[next..next + 3] + [text[next + 3]] + text[next + 4..];
  }

  lemma {:induction false} MemorySpelled(text: string, letter: char, area: Area, size: Option<char>, offset: string, bit: Option<string>)
    requires LetterNames(letter, area) && (size.Some? ==> IsWidth(size.value))
    requires IsNumber(offset) && (bit.Some? ==> IsNumber(bit.value))
    requires text == [letter] + (if size.Some? then [size.value] else []) + (offset + SuffixText(bit))
    ensures FormOf(text) == MemoryForm(area, size, ValueOf(offset), SuffixValue(bit))
  {
    hide ParseNumber, ParseTail, ValueOf;
    var at := if size.Some? then 2 else 1;
    assert text[0] == letter && text[at..] == offset + SuffixText(bit);
    assert text[1] == if size.Some? then size.value else offset[0];
    assert text[..2][0] == letter;
    TailSpelled(text, at, offset, bit);
  }

  lemma {:induction false} MemoryFound(text: string) returns (offset: string, bit: Option<string>)
    requires MemoryFormOf(text).MemoryForm?
    ensures IsNumber(offset) && (bit.Some? ==> IsNumber(bit.value))
    ensures
      var MemoryForm(area, size, value, suffix) := MemoryFormOf(text);
      && text != "" && LetterNames(text[0], area) && (size.Some? ==> IsWidth(size.value))
      && text == [text[0]] + (if size.Some? then [size.value] else []) + (offset + SuffixText(bit))
      && value == ValueOf(offset) && suffix == SuffixValue(bit)
  {
    hide ParseTail, ValueOf;
    var size := MemoryFormOf(text).size;
    var at := if size.Some? then 2 else 1;
    offset, bit := TailFound(text, at);
    assert text == [text[0]] + text[1..at] + text[at..];
  }

  lemma {:induction false} IndexSpelled(text: string, prefix: string, digits: string)
    requires prefix in {"T", "TM", "C", "CT", "Z"} && IsNumber(digits) && text == prefix + digits
    ensures FormOf(text) == if prefix == "T" || prefix == "TM" then TimerForm(ValueOf(digits)) else CounterForm(ValueOf(digits))
  {
    hide ValueOf;
    assert text[..|prefix|] == prefix && text[|prefix|..] == digits + "";
    DigitsReadBack(text, |prefix|, digits, "");
    assert text[0] == prefix[0] && (|prefix| == 2 ==> text[1] == prefix[1]) && (|prefix| == 1 ==> text[1] == digits[0]);
    assert text[..2] == [text[0], text[1]] && text[..1] == [text[0]];
    RunEnds(text, |prefix|, |text|);
    if |prefix| == 2 {
      RunEnds(text, 1, 1);
    }
  }

  lemma {:induction false} IndexFound(text: string, prefix: string)
    requires IndexAfter(text, prefix).Some?
    ensures text == prefix + text[|prefix|..] && IsNumber(text[|prefix|..])
    ensures IndexAfter(text, prefix).value == ValueOf(text[|prefix|..])
  {
    hide ParseNumber, ValueOf;
    NumberFound(text, |prefix|);
    assert text == text[..|prefix|] + text[|prefix|..];
    assert text[|prefix|..|text|] == text[|prefix|..];
  }

  /** What a spelling denotes, the parser reads ... */
  lemma {:induction false} SpelledIsRead(text: string, spelling: Spelling, address: Address, transport: TransportType)
    requires Denotes(text, spelling, address, transport)
    ensures LocateForm(FormOf(text)) == Ok(Located(address, transport))
  {
    hide FormOf, ValueOf;
    var Spelling(letter, db, offset, bit) := spelling;
    if address.area == Timer {
      IndexSpelled(text, if text == "T" + offset then "T" else "TM", offset);
    } else if address.area == Counter {
      IndexSpelled(text, if text == "C" + offset then "C" else if text == "CT" + offset then "CT" else "Z", offset);
    } else if address.area == DB {
      DbSpelled(text, db, WidthChar(transport), offset, bit);
    } else if text == [letter, WidthChar(transport)] + (offset + SuffixText(bit)) {
      assert [letter] + [WidthChar(transport)] == [letter, WidthChar(transport)];
      MemorySpelled(text, letter, address.area, Some(WidthChar(transport)), offset, bit);
    } else {
      assert [letter] + [] == [letter];
      MemorySpelled(text, letter, address.area, None, offset, bit);
    }
  }

  /** ... and it reads nothing else. */
  lemma {:induction false} ReadIsSpelled(text: string, address: Address, transport: TransportType) returns (spelling: Spelling)
    requires LocateForm(FormOf(text)) == Ok(Located(address, transport))
    ensures Denotes(text, spelling, address, transport)
  {
    hide ValueOf, ParseNumber, ParseTail, IndexAfter, DbFormOf, MemoryFormOf;
    var form := FormOf(text);
    if form.DbForm? {
      var db, offset, bit := DbFound(text);
      spelling := Spelling(' ', db, offset, bit);
    } else if form.MemoryForm? {
      var offset, bit := MemoryFound(text);
      spelling := Spelling(text[0], "", offset, bit);
      if form.size.Some? {
        assert [text[0]] + [form.size.value] == [text[0], form.size.value];
      } else {
        assert [text[0]] + [] == [text[0]];
      }
    } else {
      var prefix := if IndexAfter(text, "T").Some? then "T" else if IndexAfter(text, "TM").Some? then "TM"
                    else if IndexAfter(text, "C").Some? then "C" else if IndexAfter(text, "CT").Some? then "CT" else "Z";
      IndexFound(text, prefix);
      spelling := Spelling(' ', "", text[|prefix|..], None);
    }
  }

  /** Blanks around a text, its case and one leading percent sign mean nothing. */
  lemma {:induction false} NormalizedMeaning(left: string, core: string, right: string)
    requires (forall i | 0 <= i < |left| :: IsSpace(left[i])) && (forall i | 0 <= i < |right| :: IsSpace(right[i]))
    requires core != "" && !IsSpace(core[0]) && !IsSpace(core[|core| - 1])
    ensures Normalized(left + core + right) == if core[0] == '%' then Upper(core[1..]) else Upper(core)
  {
    LeftTrimmed(left, core + right);
    assert left + core + right == left + (core + right);
    RightTrimmed(core, right);
    assert Upper(core)[1..] == Upper(core[1..]);
  }

  lemma {:induction false} LeftTrimmed(left: string, rest: string)
    requires (forall i | 0 <= i < |left| :: IsSpace(left[i])) && rest != "" && !IsSpace(rest[0])
    ensures TrimLeft(left + rest) == rest
  {
    if left == "" {
      assert left + rest == rest;
    } else {
      LeftTrimmed(left[1..], rest);
      assert (left + rest)[1..] == left[1..] + rest;
    }
  }

  lemma {:induction false} RightTrimmed(core: string, right: string)
    requires (forall i | 0 <= i < |right| :: IsSpace(right[i])) && core != "" && !IsSpace(core[|core| - 1])
    ensures TrimRight(core + right) == core
  {
    if right == "" {
      assert core + right == core;
    } else {
      RightTrimmed(core, right[..|right| - 1]);
      assert (core + right)[..|core + right| - 1] == core + right[..|right| - 1];
    }
  }

  /** Every spelling is made of digits, capitals and points. */
  lemma {:induction false} DenotingIsClean(text: string, spelling: Spelling, address: Address, transport: TransportType)
    requires Denotes(text, spelling, address, transport)
    ensures text != "" && Clean(text)
  {
    hide ValueOf;
    assert Clean(spelling.offset) && (spelling.bit.Some? ==> Clean(spelling.bit.value));
    assert Clean(spelling.offset + SuffixText(spelling.bit));
    assert address.area == DB ==> Clean(spelling.db);
  }

  /** The parser accepts exactly the texts that spell an address, and returns what they spell. */
  lemma {:induction false} ParseMeaning(input: string, address: Address, transport: TransportType)
    ensures ParseAddress(input) == Ok(Located(address, transport)) <==>
      exists spelling :: Denotes(Normalized(input), spelling, address, transport)
  {
    hide FormOf, LocateForm, Denotes, Normalized;
    var text := Normalized(input);
    if ParseAddress(input) == Ok(Located(address, transport)) {
      var spelling := ReadIsSpelled(text, address, transport);
      assert Denotes(text, spelling, address, transport);
    }
    if spelling :| Denotes(text, spelling, address, transport) {
      SpelledIsRead(text, spelling, address, transport);
      DenotingIsClean(text, spelling, address, transport);
      CleanHasNoBlanks(text);
    }
  }

  /** A form whose parts are in order but whose address has more than 24 bits. */
  predicate TooFar(form: Form) {
    match form
    case DbForm(db, width, offset, bit) =>
      && 1 <= db <= 0xFFFF && offset <= 0xFFFF_FFFF
      && (if width == 'X' then bit.Some? && bit.value <= 7 else bit.None?)
      && 8 * offset + (if bit.Some? then bit.value else 0) > 0xFF_FFFF
    case MemoryForm(_, size, offset, bit) =>
      && offset <= 0xFFFF_FFFF
      && (if bit.Some? then bit.value <= 7 && (size.None? || size == Some('X')) else size.Some? && size != Some('X'))
      && 8 * offset + (if bit.Some? then bit.value else 0) > 0xFF_FFFF
    case _ => false
  }

  /** Everything else is refused as an invalid argument, an address too far as a limit. */
  lemma {:induction false} ParseRefused(input: string)
    requires ParseAddress(input).Err?
    ensures
      var text := Normalized(input);
      var blank := exists i :: 0 <= i < |text| && text[i] in {' ', '\t', '\r', '\n'};
      ParseAddress(input).error ==
      Error(if text != "" && !blank && TooFar(FormOf(text)) then ErrorKind.Limit else ErrorKind.InvalidArgument, 0, 0, Unchanged)
  {
    hide Normalized, FormOf;
    FormParts(Normalized(input));
  }

  lemma {:induction false} FormParts(text: string)
    ensures FormOf(text).DbForm? ==> IsWidth(FormOf(text).width)
    ensures FormOf(text).MemoryForm? ==>
      && FormOf(text).area in {Input, Output, Marker}
      && (FormOf(text).size.Some? ==> IsWidth(FormOf(text).size.value))
  {
    hide ParseNumber, ParseTail;
  }

  lemma {:induction false} CleanHasNoBlanks(text: string)
    requires Clean(text)
    ensures !exists i :: 0 <= i < |text| && text[i] in {' ', '\t', '\r', '\n'}
  {
    assert forall i | 0 <= i < |text| :: IsClean(text[i]);
  }

  // ------------------------------------------------------------ round trips

  /** The one spelling the formatter emits: no alias, no leading zero. */
  function CanonicalText(address: Address, transport: TransportType): string {
    (if address.area == Timer then "T"
     else if address.area == Counter then "C"
     else if address.area == DB then "DB" + Decimal(address.dbNumber) + ".DB" + [WidthChar(transport)]
     else [if address.area == Input then 'I' else if address.area == Output then 'Q' else 'M', WidthChar(transport)])
    + (Decimal(address.offset) + if transport == TransportBit then "." + Decimal(address.bit) else "")
  }

  /** Exactly the valid pairs have a spelling, the canonical one. */
  lemma {:induction false} FormatIsCanonical(address: Address, transport: TransportType)
    ensures FormatAddress(address, transport).Ok? <==> ValidateItemAddress(address, transport).Pass?
    ensures FormatAddress(address, transport).Ok? ==> FormatAddress(address, transport).value == CanonicalText(address, transport)
  {
    hide Decimal;
    if ValidateItemAddress(address, transport).Pass? {
      if IndexedArea(address.area) {
        assert Decimal(address.offset) + "" == Decimal(address.offset);
      } else {
        var prefix := if address.area == DB then "DB" + Decimal(address.dbNumber) + ".DB" else AreaLetter(address.area);
        var width, offset := [WidthChar(transport)], Decimal(address.offset);
        var bit := if transport == TransportBit then "." + Decimal(address.bit) else "";
        assert prefix + width + (offset + bit) == prefix + width + offset + bit;
        assert offset + "" == offset;
      }
    }
  }

  lemma {:induction false} CanonicalDenotes(address: Address, transport: TransportType)
    requires ValidateItemAddress(address, transport).Pass?
    ensures exists spelling :: Denotes(CanonicalText(address, transport), spelling, address, TextTransport(transport))
  {
    hide Decimal, ValueOf;
    DecimalRoundTrip(address.offset);
    DecimalRoundTrip(address.bit);
    DecimalRoundTrip(address.dbNumber);
    var bit := if transport == TransportBit then Some(Decimal(address.bit)) else None;
    var letter := if address.area == Input then 'I' else if address.area == Output then 'Q' else 'M';
    var spelling := Spelling(letter, Decimal(address.dbNumber), Decimal(address.offset), bit);
    if IndexedArea(address.area) {
      assert Decimal(address.offset) + "" == Decimal(address.offset);
    }
    assert Denotes(CanonicalText(address, transport), spelling, address, TextTransport(transport));
  }

  /** Exactly the valid pairs have a spelling, and parsing it gives the pair back, with a
      real as a double word. */
  lemma {:induction false} FormatParses(address: Address, transport: TransportType)
    ensures FormatAddress(address, transport).Ok? <==> ValidateItemAddress(address, transport).Pass?
    ensures FormatAddress(address, transport).Ok? ==>
      ParseAddress(FormatAddress(address, transport).value) == Ok(Located(address, TextTransport(transport)))
  {
    hide Normalized, ParseAddress, FormatAddress, Denotes, CanonicalText;
    FormatIsCanonical(address, transport);
    if ValidateItemAddress(address, transport).Pass? {
      var text := CanonicalText(address, transport);
      CanonicalDenotes(address, transport);
      var spelling :| Denotes(text, spelling, address, TextTransport(transport));
      DenotingIsClean(text, spelling, address, TextTransport(transport));
      CleanIsNormal(text);
      ParseMeaning(text, address, TextTransport(transport));
    }
  }

  /** What the parser accepts is always a valid address, never a real. */
  lemma {:induction false} ParsedIsValid(input: string)
    requires ParseAddress(input).Ok?
    ensures ValidateItemAddress(ParseAddress(input).value.address, ParseAddress(input).value.transport).Pass?
    ensures TextTransport(ParseAddress(input).value.transport) == ParseAddress(input).value.transport
  {
    hide FormOf, Normalized;
  }

  /** Formatting what was parsed is a canonical form: it parses to the same address, and
      formatting that again changes nothing. */
  lemma {:induction false} ParseThenFormatIsCanonical(input: string)
    requires ParseAddress(input).Ok?
    ensures
      var located := ParseAddress(input).value;
      var text := FormatAddress(located.address, located.transport);
      && text.Ok?
      && ParseAddress(text.value) == ParseAddress(input)
      && FormatAddress(ParseAddress(text.value).value.address, ParseAddress(text.value).value.transport) == text
  {
    hide ParseAddress, FormatAddress, ValidateItemAddress;
    ParsedIsValid(input);
    FormatParses(ParseAddress(input).value.address, ParseAddress(input).value.transport);
  }

  /** Two valid pairs share a spelling only if they are the same address in the same text
      width. */
  lemma {:induction false} SpellingsDiffer(one: Address, oneTransport: TransportType, two: Address, twoTransport: TransportType)
    requires FormatAddress(one, oneTransport).Ok? && FormatAddress(one, oneTransport) == FormatAddress(two, twoTransport)
    ensures one == two && TextTransport(oneTransport) == TextTransport(twoTransport)
  {
    hide ParseAddress, FormatAddress;
    FormatParses(one, oneTransport);
    FormatParses(two, twoTransport);
  }
}

/**
 * The line handling and the accept/reject decisions of
 * EazyStart/src/io/input.c, once a line has been read into the buffer.
 *
 * The buffer is a C string: a sequence of characters that holds a '\0'
 * terminator, of which only the part before the first '\0' is the text.
 * Whitespace is that of `isspace` in the C locale. The library conversion
 * functions (strtol, strtoul, strtod and their kin) are an oracle: what
 * they return is given as a Conversion.
 */
module Input {
  import opened Wrappers
  import opened CInt

  /** The text holds a terminator. */
  predicate IsCString(s: seq<char>) {
    '\0' in s
  }

  /** strlen: the index of the first terminator. */
  function CLength(s: seq<char>): (n: nat)
    requires IsCString(s)
    ensures n < |s| && s[n] == '\0'
    ensures forall i :: 0 <= i < n ==> s[i] != '\0'
  {
    if s[0] == '\0' then 0 else 1 + CLength(s[1..])
  }

  /** isspace in the C locale. */
  predicate IsSpace(c: char) {
    c == ' ' || c == '\t' || c == '\n' || c == '\U{B}' || c == '\U{C}' || c == '\r'
  }

  /** toupper in the C locale. */
  function ToUpper(c: char): char {
    if 'a' <= c <= 'z' then (c as int - 'a' as int + 'A' as int) as char else c
  }

  /** The position get_first_non_whitespace_char returns for the string
      starting at index from: None when only whitespace remains. */
  function FirstNonSpace(s: seq<char>, from: nat): (r: Option<nat>)
    requires IsCString(s) && from <= CLength(s)
    ensures r.Some? ==> from <= r.value < CLength(s)
    decreases CLength(s) - from
  {
    if s[from] == '\0' then None
    else if IsSpace(s[from]) then FirstNonSpace(s, from + 1)
    else Some(from)
  }

  /** FirstNonSpace finds the first character from `from` on that is not
      whitespace, or reports that there is none before the terminator. */
  lemma {:induction false} FirstNonSpaceIsFirst(s: seq<char>, from: nat)
    requires IsCString(s) && from <= CLength(s)
    ensures FirstNonSpace(s, from).Some? ==>
      var i := FirstNonSpace(s, from).value;
      from <= i < CLength(s) && !IsSpace(s[i]) &&
      forall j :: from <= j < i ==> IsSpace(s[j])
    ensures FirstNonSpace(s, from).None? <==>
      forall j :: from <= j < CLength(s) ==> IsSpace(s[j])
    decreases CLength(s) - from
  {
    if s[from] != '\0' && IsSpace(s[from]) {
      FirstNonSpaceIsFirst(s, from + 1);
    }
  }

  /** get_first_non_whitespace_char: advance over whitespace until the
      terminator or a character that is not whitespace. */
  method GetFirstNonWhitespaceChar(s: seq<char>, from: nat) returns (r: Option<nat>)
    requires IsCString(s) && from <= CLength(s)
    ensures r == FirstNonSpace(s, from)
  {
    var i := from;
    while s[i] != '\0' && IsSpace(s[i])
      invariant from <= i <= CLength(s)
      invariant FirstNonSpace(s, i) == FirstNonSpace(s, from)
      decreases CLength(s) - i
    {
      i := i + 1;
    }
    r := if s[i] == '\0' then None else Some(i);
  }

  /** The position of the first '\n' of the text, as strchr finds it. */
  function NewlineIndex(s: seq<char>): (r: Option<nat>)
    requires IsCString(s)
    ensures r.Some? ==> r.value < CLength(s)
  {
    NewlineFrom(s, 0)
  }

  function NewlineFrom(s: seq<char>, from: nat): (r: Option<nat>)
    requires IsCString(s) && from <= CLength(s)
    ensures r.Some? ==> from <= r.value < CLength(s)
    decreases CLength(s) - from
  {
    if s[from] == '\0' then None
    else if s[from] == '\n' then Some(from)
    else NewlineFrom(s, from + 1)
  }

  /** NewlineIndex is the first '\n' of the text, None when it has none. */
  lemma {:induction false} NewlineFromIsFirst(s: seq<char>, from: nat)
    requires IsCString(s) && from <= CLength(s)
    ensures NewlineFrom(s, from).Some? ==>
      var i := NewlineFrom(s, from).value;
      from <= i < CLength(s) && s[i] == '\n' &&
      forall j :: from <= j < i ==> s[j] != '\n'
    ensures NewlineFrom(s, from).None? <==>
      forall j :: from <= j < CLength(s) ==> s[j] != '\n'
    decreases CLength(s) - from
  {
    if s[from] != '\0' && s[from] != '\n' {
      NewlineFromIsFirst(s, from + 1);
    }
  }

  /** The newline handling of read_line on the buffer fgets filled: with no
      '\n' in the text the line was too long and false is returned;
      otherwise the first '\n' becomes the terminator. */
  method TerminateLine(buffer: array<char>) returns (ok: bool)
    requires IsCString(buffer[..])
    modifies buffer
    ensures ok <==> NewlineIndex(old(buffer[..])).Some?
    ensures ok ==> buffer[..] == old(buffer[..])[NewlineIndex(old(buffer[..])).value := '\0']
    ensures !ok ==> buffer[..] == old(buffer[..])
  {
    ghost var s := buffer[..];
    var i := 0;
    while buffer[i] != '\0' && buffer[i] != '\n'
      invariant 0 <= i <= CLength(s)
      invariant buffer[..] == s
      invariant NewlineFrom(s, i) == NewlineIndex(s)
      decreases CLength(s) - i
    {
      i := i + 1;
    }
    if buffer[i] == '\0' {
      return false;
    }
    buffer[i] := '\0';
    ok := true;
  }

  /** After read_line succeeds, the text is exactly what came before the
      first newline. */
  lemma TerminatedText(s: seq<char>)
    requires IsCString(s) && NewlineIndex(s).Some?
    ensures var t := s[NewlineIndex(s).value := '\0'];
      IsCString(t) && CLength(t) == NewlineIndex(s).value &&
      t[..CLength(t)] == s[..NewlineIndex(s).value]
  {
    NewlineFromIsFirst(s, 0);
    var t := s[NewlineIndex(s).value := '\0'];
    assert t[NewlineIndex(s).value] == '\0';
    CLengthIsFirstTerminator(t, NewlineIndex(s).value);
  }

  lemma CLengthIsFirstTerminator(s: seq<char>, n: nat)
    requires n < |s| && s[n] == '\0'
    requires forall i :: 0 <= i < n ==> s[i] != '\0'
    ensures IsCString(s) && CLength(s) == n
  {
    assert s[n] in s;
    var m := CLength(s);
    assert s[m] == '\0' && s[n] == '\0';
  }

  /** ezs_input_char_with_prompt on a read line: an empty line means '\n',
      a single character is taken as it is, whitespace included, and a
      longer line is rejected (None). */
  function CharInput(buffer: seq<char>): (r: Option<char>)
    requires IsCString(buffer)
    ensures r.None? <==> CLength(buffer) >= 2
  {
    if buffer[0] == '\0' then Some('\n')
    else if buffer[1] != '\0' then None
    else Some(buffer[0])
  }

  /** The char input by the length of the text. */
  lemma CharInputByLength(buffer: seq<char>)
    requires IsCString(buffer)
    ensures CLength(buffer) == 0 ==> CharInput(buffer) == Some('\n')
    ensures CLength(buffer) == 1 ==> CharInput(buffer) == Some(buffer[0])
    ensures CLength(buffer) >= 2 <==> CharInput(buffer).None?
  {
    if buffer[0] != '\0' {
      assert CLength(buffer) >= 1;
    }
  }

  predicate IsTrueLetter(c: char) {
    c == 'Y' || c == 'T' || c == '1'
  }

  predicate IsFalseLetter(c: char) {
    c == 'N' || c == 'F' || c == '0'
  }

  /** ezs_input_bool_with_prompt on a read line: exactly one character
      other than whitespace, which must be one of Y/T/1 or N/F/0 in either
      case. None means the line is rejected. */
  function BoolInput(buffer: seq<char>): (r: Option<bool>)
    requires IsCString(buffer)
    ensures r.Some? ==> CLength(buffer) > 0
  {
    match FirstNonSpace(buffer, 0)
    case None => None
    case Some(start) =>
      if FirstNonSpace(buffer, start + 1).Some? then None
      else
        var c := ToUpper(buffer[start]);
        if IsTrueLetter(c) then Some(true)
        else if IsFalseLetter(c) then Some(false)
        else None
  }

  /** The text is whitespace around the single character at index i. */
  ghost predicate OnlyNonSpaceAt(buffer: seq<char>, i: nat)
    requires IsCString(buffer)
  {
    i < CLength(buffer) && !IsSpace(buffer[i]) &&
    forall j :: 0 <= j < CLength(buffer) && j != i ==> IsSpace(buffer[j])
  }

  /** A bool is read exactly when the text is one recognised letter
      surrounded by whitespace, and it is the letter's meaning. */
  lemma BoolInputMeaning(buffer: seq<char>, b: bool)
    requires IsCString(buffer)
    ensures BoolInput(buffer) == Some(b) <==>
      exists i: nat :: OnlyNonSpaceAt(buffer, i) &&
        if b then IsTrueLetter(ToUpper(buffer[i])) else IsFalseLetter(ToUpper(buffer[i]))
  {
    FirstNonSpaceIsFirst(buffer, 0);
    match FirstNonSpace(buffer, 0)
    case None =>
      forall i: nat | OnlyNonSpaceAt(buffer, i)
        ensures false
      {
      }
    case Some(start) =>
      FirstNonSpaceIsFirst(buffer, start + 1);
      if FirstNonSpace(buffer, start + 1).None? {
        assert OnlyNonSpaceAt(buffer, start);
        forall i: nat | OnlyNonSpaceAt(buffer, i)
          ensures i == start
        {
        }
      } else {
        forall i: nat | OnlyNonSpaceAt(buffer, i)
          ensures false
        {
        }
      }
  }

  /** "Yes" is rejected: only single letters are recognised. */
  lemma YesIsRejected()
    ensures BoolInput("Yes\0") == None
  {
    var s := "Yes\0";
    assert FirstNonSpace(s, 0) == Some(0);
    assert FirstNonSpace(s, 1) == Some(1);
  }

  /** Why a numeric line is rejected. */
  datatype Verdict = NoConversion | OutOfRange | ExtraCharacters(at: nat) | Accepted

  /** What the library conversion reported: its value, the index in the
      buffer where the interpretation ended, and whether errno was ERANGE. */
  datatype Conversion = Conversion(value: int, end: nat, erange: bool)

  /** The checks of DEFINE_INPUT_FUNC, in their order: nothing converted;
      ERANGE or the type's range check; anything but whitespace after the
      converted prefix. */
  function Decide(buffer: seq<char>, end: nat, erange: bool, rangeFails: bool): (r: Verdict)
    requires IsCString(buffer) && end <= CLength(buffer)
    ensures r == NoConversion <==> end == 0
    ensures r == OutOfRange <==> end > 0 && (erange || rangeFails)
    ensures r.ExtraCharacters? ==> end <= r.at < CLength(buffer)
  {
    if end == 0 then NoConversion
    else if erange || rangeFails then OutOfRange
    else match FirstNonSpace(buffer, end)
      case Some(i) => ExtraCharacters(i)
      case None => Accepted
  }

  /** A line is accepted exactly when the conversion consumed something,
      reported no range error, and only whitespace follows it. */
  lemma DecideAcceptsIff(buffer: seq<char>, end: nat, erange: bool, rangeFails: bool)
    requires IsCString(buffer) && end <= CLength(buffer)
    ensures Decide(buffer, end, erange, rangeFails) == Accepted <==>
      end > 0 && !erange && !rangeFails &&
      forall j :: end <= j < CLength(buffer) ==> IsSpace(buffer[j])
    ensures Decide(buffer, end, erange, rangeFails).ExtraCharacters? ==>
      var i := Decide(buffer, end, erange, rangeFails).at;
      end <= i < CLength(buffer) && !IsSpace(buffer[i])
  {
    FirstNonSpaceIsFirst(buffer, end);
  }

  /** The values the conversion function for type t can return: strtol
      and strtoll for signed types, strtoul and strtoull for unsigned ones,
      all 64 bits wide. */
  predicate ConverterRange(t: CType, v: int)
    requires ValidType(t)
  {
    if t.signed then InType(Long, v) else InType(UnsignedLong, v)
  }

  /** RANGE_CHECK of input.h for an integer type: the limits of the type
      for types narrower than long (only the upper one for unsigned types,
      whose converter never returns a negative value), nothing for the
      64-bit types, whose limits the converter's own ERANGE enforces. */
  function RangeCheckFails(t: CType, v: int): bool
    requires ValidType(t)
  {
    if t.bits == 64 then false
    else if t.signed then v < MinValue(t) || v > MaxValue(t)
    else v > MaxValue(t)
  }

  /** The range checks at the edges of the narrower types: the extreme
      values pass and the next value out is refused. */
  lemma NarrowTypeEdges()
    ensures !RangeCheckFails(SignedChar, -128) && RangeCheckFails(SignedChar, 128)
    ensures !RangeCheckFails(UnsignedChar, 255) && RangeCheckFails(UnsignedChar, 256)
    ensures !RangeCheckFails(Short, -0x8000) && RangeCheckFails(Short, 0x8000)
    ensures !RangeCheckFails(UnsignedShort, 0xffff) && RangeCheckFails(UnsignedShort, 0x1_0000)
    ensures !RangeCheckFails(Int, -0x8000_0000) && RangeCheckFails(Int, 0x8000_0000)
    ensures !RangeCheckFails(UnsignedInt, 0xffff_ffff) && RangeCheckFails(UnsignedInt, 0x1_0000_0000)
    ensures !RangeCheckFails(UnsignedLongLong, U64Max)
  {
  }

  /** The range checks reject exactly the values outside the type. */
  lemma RangeCheckIsTypeLimits(t: CType, v: int)
    requires ValidType(t) && ConverterRange(t, v)
    ensures RangeCheckFails(t, v) <==> !InType(t, v)
  {
  }

  /** ezs_input_<integer type>_with_prompt on a read line and the
      converter's report: the value, or None when the line is rejected. */
  function IntegerInput(t: CType, buffer: seq<char>, conv: Conversion): (r: Option<int>)
    requires ValidType(t) && IsCString(buffer) && conv.end <= CLength(buffer)
    ensures r.Some? ==> InType(t, r.value)
  {
    if Decide(buffer, conv.end, conv.erange, RangeCheckFails(t, conv.value)) == Accepted
    then Some(ToType(t, conv.value))
    else None
  }

  /** An accepted value fits the type, so the final cast keeps it; and a
      value of the type with a clean conversion is accepted. */
  lemma IntegerInputFits(t: CType, buffer: seq<char>, conv: Conversion)
    requires ValidType(t) && IsCString(buffer) && conv.end <= CLength(buffer)
    requires ConverterRange(t, conv.value)
    ensures IntegerInput(t, buffer, conv).Some? ==>
      IntegerInput(t, buffer, conv).value == conv.value && InType(t, conv.value)
    ensures IntegerInput(t, buffer, conv).Some? <==>
      conv.end > 0 && !conv.erange && InType(t, conv.value) &&
      forall j :: conv.end <= j < CLength(buffer) ==> IsSpace(buffer[j])
  {
    RangeCheckIsTypeLimits(t, conv.value);
    DecideAcceptsIff(buffer, conv.end, conv.erange, RangeCheckFails(t, conv.value));
    if InType(t, conv.value) {
      ToTypeKeeps(t, conv.value);
    }
  }

  /** ezs_input_<floating type>_with_prompt: no range check besides
      ERANGE. Only the accept/reject decision is modelled. */
  function FloatingAccepted(buffer: seq<char>, end: nat, erange: bool): (ok: bool)
    requires IsCString(buffer) && end <= CLength(buffer)
    ensures ok <==>
      end > 0 && !erange && forall j :: end <= j < CLength(buffer) ==> IsSpace(buffer[j])
  {
    DecideAcceptsIff(buffer, end, erange, false);
    Decide(buffer, end, erange, false) == Accepted
  }
}

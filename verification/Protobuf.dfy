/** Bytes, the builder's hand-written protobuf encoder, and a parser that follows the encoding's own rules. */
module Bytes {
  type byte = x: int | 0 <= x < 256

  function Xor(a: byte, b: byte): byte { ((a as bv8) ^ (b as bv8)) as byte }

  lemma BitsRoundTrip(b: bv8)
    ensures (b as int) as bv8 == b
  {
  }

  lemma Successor(b: bv8)
    requires b < 255
    ensures (b + 1) as int == b as int + 1
  {
  }

  lemma {:induction false} ByteRoundTrip(a: byte)
    ensures (a as bv8) as int == a
  {
    if a == 0 {
    } else {
      ByteRoundTrip(a - 1);
      Successor((a - 1) as bv8);
      BitsRoundTrip((a - 1) as bv8 + 1);
    }
  }

  lemma XorInvolutive(a: byte, b: byte)
    ensures Xor(Xor(a, b), b) == a
  {
    ByteRoundTrip(a);
    BitsRoundTrip((a as bv8) ^ (b as bv8));
  }

  predicate Is32Bit(x: int) { 0 <= x < 0x1_0000_0000 }

  function Le32(x: int): seq<byte>
    requires Is32Bit(x)
  {
    [x % 256, x / 256 % 256, x / 256 / 256 % 256, x / 256 / 256 / 256]
  }

  function FromLe32(s: seq<byte>): nat
    requires |s| == 4
  {
    s[0] as int + 256 * (s[1] as int + 256 * (s[2] as int + 256 * s[3] as int))
  }

  lemma Le32RoundTrip(x: int)
    requires Is32Bit(x)
    ensures FromLe32(Le32(x)) == x
  {
  }
}

module Protobuf {
  import opened Bytes
  import opened Options

  /** `value & 0x7F` on unbounded two's complement integers. */
  function Low7(value: int): byte { value % 128 }

  function Varint(value: int): seq<byte>
    decreases if value < 0 then 0 else value
  {
    if value > 0x7F then [Low7(value) + 0x80] + Varint(value / 128) else [Low7(value)]
  }

  method EncodeVarint(value: int) returns (result: seq<byte>)
    ensures result == Varint(value)
  {
    result := [];
    var rest := value;
    while rest > 0x7F
      invariant result + Varint(rest) == Varint(value)
      decreases rest
    {
      assert Varint(rest) == [Low7(rest) + 0x80] + Varint(rest / 128);
      result := result + [Low7(rest) + 0x80];
      rest := rest / 128;
    }
    result := result + [Low7(rest)];
  }

  const MAX_VARINT_BYTES: nat := 10
  const WORD: nat := 0x1_0000_0000_0000_0000

  /** A base-128 number of at most `most` bytes, with the number of bytes it takes. */
  function ReadBase128(s: seq<byte>, most: nat): (r: Option<(nat, nat)>)
    ensures r.Some? ==> 1 <= r.value.1 <= |s|
  {
    if s == [] || most == 0 then None
    else
      var low := s[0] % 0x80;
      if s[0] < 0x80 then Some((low, 1))
      else
        match ReadBase128(s[1..], most - 1)
        case None => None
        case Some((high, used)) => Some((low + 128 * high, used + 1))
  }

  /** A varint has at most ten bytes and keeps the low 64 bits. */
  function ReadVarint(s: seq<byte>): (r: Option<(nat, nat)>)
    ensures r.Some? ==> r.value.0 < WORD && 1 <= r.value.1 <= |s|
  {
    match ReadBase128(s, MAX_VARINT_BYTES)
    case None => None
    case Some((value, used)) => Some((value % WORD, used))
  }

  lemma {:induction false} Base128RoundTrip(value: nat, rest: seq<byte>, most: nat)
    requires |Varint(value)| <= most
    ensures ReadBase128(Varint(value) + rest, most) == Some((value, |Varint(value)|))
  {
    var s := Varint(value) + rest;
    if value <= 0x7F {
    } else {
      Base128RoundTrip(value / 128, rest, most - 1);
      assert s[1..] == Varint(value / 128) + rest;
    }
  }

  lemma {:induction false} VarintLength(value: nat, digits: nat, limit: nat)
    requires digits >= 1 && value < limit && limit == Pow128(digits)
    ensures |Varint(value)| <= digits
  {
    if value <= 0x7F {
    } else {
      VarintLength(value / 128, digits - 1, Pow128(digits - 1));
    }
  }

  function Pow128(n: nat): nat {
    if n == 0 then 1 else 128 * Pow128(n - 1)
  }

  /** Decoding undoes encoding, whatever follows, exactly for the values that fit 64 bits. */
  lemma VarintRoundTripIff(value: int, rest: seq<byte>)
    ensures ReadVarint(Varint(value) + rest) == Some((value, |Varint(value)|)) <==>
            0 <= value < 0x1_0000_0000_0000_0000
  {
    if 0 <= value < WORD {
      VarintFitsTen(value);
      Base128RoundTrip(value, rest, MAX_VARINT_BYTES);
    }
  }

  lemma VarintFitsTen(value: nat)
    requires value < WORD
    ensures |Varint(value)| <= MAX_VARINT_BYTES
  {
    assert Pow128(10) == 128 * 128 * 128 * 128 * 128 * 128 * 128 * 128 * 128 * 128;
    VarintLength(value, 10, Pow128(10));
  }

  /** A number whose first ten bytes all announce another one is malformed. */
  lemma {:induction false} EndlessVarintRefused(s: seq<byte>, most: nat)
    requires |s| >= most && forall k :: 0 <= k < most ==> s[k] >= 0x80
    ensures ReadBase128(s, most) == None && (most == 10 ==> ReadVarint(s) == None)
  {
    if most == 0 {
    } else {
      EndlessVarintRefused(s[1..], most - 1);
    }
  }

  /** The example of the encoding's own documentation, and what the loop makes of a negative number. */
  lemma VarintExamples()
    ensures Varint(150) == [0x96, 0x01] && Varint(-1) == [0x7F]
  {
  }

  // Messages

  datatype Value = Number(number: nat) | Fixed(bytes: seq<byte>) | Delimited(content: seq<byte>)

  datatype Field = Field(tag: nat, value: Value)

  /** The value that follows a tag of the given wire type, and its length; group wire types are refused. */
  function ReadValue(s: seq<byte>, wireType: nat): (r: Option<(Value, nat)>)
    ensures r.Some? ==> r.value.1 <= |s|
  {
    match wireType
    case 0 =>
      (match ReadVarint(s)
       case None => None
       case Some((value, used)) => Some((Number(value), used)))
    case 1 => if |s| < 8 then None else Some((Fixed(s[..8]), 8))
    case 2 =>
      (match ReadVarint(s)
       case None => None
       case Some((length, used)) =>
         if |s| - used < length then None
         else Some((Delimited(s[used..used + length]), used + length)))
    case 5 => if |s| < 4 then None else Some((Fixed(s[..4]), 4))
    case _ => None
  }

  /** The field at the start of the bytes, and its length. Keys are 32-bit and name a non-zero field. */
  function ParseField(s: seq<byte>): (r: Option<(Field, nat)>)
    ensures r.Some? ==> 1 <= r.value.1 <= |s|
  {
    match ReadVarint(s)
    case None => None
    case Some((key, used)) =>
      if key / 8 == 0 || key >= 0x1_0000_0000 then None
      else
        match ReadValue(s[used..], key % 8)
        case None => None
        case Some((value, length)) => Some((Field(key / 8, value), used + length))
  }

  /** Field number 0 and keys of more than 32 bits are malformed. */
  lemma BadKeyRefused(s: seq<byte>, key: nat, used: nat)
    requires ReadVarint(s) == Some((key, used)) && (key < 8 || key >= 0x1_0000_0000)
    ensures ParseField(s) == None
  {
  }

  function ParseFields(s: seq<byte>): Option<seq<Field>>
    decreases |s|
  {
    if s == [] then Some([])
    else
      match ParseField(s)
      case None => None
      case Some((field, length)) =>
        match ParseFields(s[length..])
        case None => None
        case Some(fields) => Some([field] + fields)
  }

  lemma Regroup(a: seq<byte>, b: seq<byte>, c: seq<byte>)
    ensures a + b + c == a + (b + c)
  {
  }

  lemma OneByteKey(key: byte, rest: seq<byte>)
    requires key < 0x80
    ensures ReadVarint([key] + rest) == Some((key, 1))
  {
    assert ReadBase128([key] + rest, MAX_VARINT_BYTES) == Some((key, 1));
  }

  lemma FieldReads(key: byte, body: seq<byte>, value: Value, rest: seq<byte>)
    requires 8 <= key < 0x80
    requires ReadValue(body + rest, key % 8) == Some((value, |body|))
    ensures ParseField([key] + body + rest) == Some((Field(key / 8, value), 1 + |body|))
  {
    assert [key] + body + rest == [key] + (body + rest);
    OneByteKey(key, body + rest);
    assert ([key] + (body + rest))[1..] == body + rest;
  }

  /** A field with a one-byte key in front of a message parses first and leaves the message over. */
  lemma FieldParses(key: byte, body: seq<byte>, value: Value, rest: seq<byte>)
    requires 8 <= key < 0x80
    requires ReadValue(body + rest, key % 8) == Some((value, |body|))
    ensures ParseFields([key] + body + rest) ==
            match ParseFields(rest)
            case None => None
            case Some(fields) => Some([Field(key / 8, value)] + fields)
  {
    FieldReads(key, body, value, rest);
    assert ([key] + body + rest)[1 + |body|..] == rest;
  }

  lemma NumberFieldParses(key: byte, number: nat, rest: seq<byte>)
    requires 8 <= key < 0x80 && key % 8 == 0 && number < WORD
    ensures ParseFields([key] + Varint(number) + rest) ==
            match ParseFields(rest)
            case None => None
            case Some(fields) => Some([Field(key / 8, Number(number))] + fields)
  {
    VarintRoundTripIff(number, rest);
    FieldParses(key, Varint(number), Number(number), rest);
  }

  /** Fixed-length values are skipped whole: four bytes after wire type 5, eight after wire type 1. */
  lemma FixedFieldParses(key: byte, body: seq<byte>, rest: seq<byte>)
    requires 8 <= key < 0x80 && ((key % 8 == 5 && |body| == 4) || (key % 8 == 1 && |body| == 8))
    ensures ParseFields([key] + body + rest) ==
            match ParseFields(rest)
            case None => None
            case Some(fields) => Some([Field(key / 8, Fixed(body))] + fields)
  {
    assert (body + rest)[..|body|] == body;
    FieldParses(key, body, Fixed(body), rest);
  }

  lemma DelimitedValueReads(content: seq<byte>, rest: seq<byte>)
    requires |content| < WORD
    ensures ReadValue(Varint(|content|) + content + rest, 2)
            == Some((Delimited(content), |Varint(|content|) + content|))
  {
    var head := Varint(|content|);
    Regroup(head, content, rest);
    VarintRoundTripIff(|content|, content + rest);
    MiddleOf(head, content, rest);
  }

  lemma MiddleOf(head: seq<byte>, content: seq<byte>, rest: seq<byte>)
    ensures (head + content + rest)[|head|..|head| + |content|] == content
  {
  }

  lemma DelimitedFieldParses(key: byte, content: seq<byte>, rest: seq<byte>)
    requires 8 <= key < 0x80 && key % 8 == 2 && |content| < WORD
    ensures ParseFields(DelimitedField(key, content) + rest) ==
            match ParseFields(rest)
            case None => None
            case Some(fields) => Some([Field(key / 8, Delimited(content))] + fields)
  {
    var body := Varint(|content|) + content;
    DelimitedValueReads(content, rest);
    FieldParses(key, body, Delimited(content), rest);
    DelimitedFieldIs(key, content);
  }

  lemma DelimitedFieldIs(key: byte, content: seq<byte>)
    ensures DelimitedField(key, content) == [key] + (Varint(|content|) + content)
  {
    Regroup([key], Varint(|content|), content);
  }

  function DelimitedField(key: byte, content: seq<byte>): seq<byte> {
    [key] + Varint(|content|) + content
  }

  /** The last number, or content, given for a field; occurrences of another wire type are unknown fields. */
  function LastNumber(fields: seq<Field>, tag: nat, default: nat): nat {
    if fields == [] then default
    else LastNumber(fields[1..], tag,
                    if fields[0].tag == tag && fields[0].value.Number? then fields[0].value.number else default)
  }

  function LastContent(fields: seq<Field>, tag: nat, default: seq<byte>): seq<byte> {
    if fields == [] then default
    else LastContent(fields[1..], tag,
                     if fields[0].tag == tag && fields[0].value.Delimited? then fields[0].value.content else default)
  }

  lemma LastOfCons(field: Field, fields: seq<Field>, tag: nat, number: nat, content: seq<byte>)
    ensures LastNumber([field] + fields, tag, number)
            == LastNumber(fields, tag,
                          if field.tag == tag && field.value.Number? then field.value.number else number)
    ensures LastContent([field] + fields, tag, content)
            == LastContent(fields, tag,
                           if field.tag == tag && field.value.Delimited? then field.value.content else content)
  {
    assert ([field] + fields)[1..] == fields;
  }

  lemma LastOfOne(field: Field, tag: nat, number: nat, content: seq<byte>)
    ensures LastNumber([field], tag, number)
            == if field.tag == tag && field.value.Number? then field.value.number else number
    ensures LastContent([field], tag, content)
            == if field.tag == tag && field.value.Delimited? then field.value.content else content
  {
    assert [field][1..] == [];
  }

  /** The last occurrence of a field decides. */
  lemma {:induction false} LastOneWins(
    fields: seq<Field>, last: Field, tag: nat, number: nat, content: seq<byte>)
    ensures LastNumber(fields + [last], tag, number)
            == if last.tag == tag && last.value.Number? then last.value.number else LastNumber(fields, tag, number)
    ensures LastContent(fields + [last], tag, content)
            == if last.tag == tag && last.value.Delimited? then last.value.content
               else LastContent(fields, tag, content)
  {
    if fields == [] {
      assert fields + [last] == [last];
      LastOfOne(last, tag, number, content);
    } else {
      var f := fields[0];
      assert (fields + [last])[0] == f && (fields + [last])[1..] == fields[1..] + [last];
      LastOneWins(fields[1..], last, tag,
                  if f.tag == tag && f.value.Number? then f.value.number else number,
                  if f.tag == tag && f.value.Delimited? then f.value.content else content);
    }
  }

  /** A 32-bit enum or integer field keeps the low 32 bits, in two's complement. */
  function Int32(number: nat): int {
    var low := number % 0x1_0000_0000;
    if low < 0x8000_0000 then low else low - 0x1_0000_0000
  }

  lemma Int32Is(number: nat)
    ensures -0x8000_0000 <= Int32(number) < 0x8000_0000
    ensures (number - Int32(number)) % 0x1_0000_0000 == 0
  {
  }

  lemma Int32Small(number: nat)
    requires number < 0x8000_0000
    ensures Int32(number) == number
  {
  }

  datatype Data = Data(portnum: int, payload: seq<byte>)

  function SerializeData(portnum: int, payload: seq<byte>): seq<byte> {
    [0x08] + Varint(portnum) + DelimitedField(0x12, payload)
  }

  lemma OneByteVarint(value: byte)
    requires value < 0x80
    ensures Varint(value) == [value]
  {
  }

  lemma TwoBytes(a: byte, b: byte)
    ensures [a] + [b] == [a, b]
  {
  }

  /** The bytes of a Data message with a small port number. */
  lemma SmallPort(portnum: byte, payload: seq<byte>)
    requires portnum < 0x80
    ensures SerializeData(portnum, payload) == [0x08, portnum] + ([0x12] + Varint(|payload|) + payload)
  {
    OneByteVarint(portnum);
    TwoBytes(0x08, portnum);
  }

  method EncodeData(portnum: int, payload: seq<byte>) returns (result: seq<byte>)
    ensures result == SerializeData(portnum, payload)
  {
    result := [0x08];
    var number := EncodeVarint(portnum);
    result := result + number;
    result := result + [0x12];
    var length := EncodeVarint(|payload|);
    result := result + length;
    result := result + payload;
    assert result == [0x08] + number + ([0x12] + length + payload);
  }

  function ParseData(s: seq<byte>): Option<Data> {
    match ParseFields(s)
    case None => None
    case Some(fields) => Some(Data(Int32(LastNumber(fields, 1, 0)), LastContent(fields, 2, [])))
  }

  /** Missing fields are read as 0 and as empty. */
  lemma EmptyMessages()
    ensures ParseData([]) == Some(Data(0, [])) && ParseUser([]) == Some(User([], [], [], 0))
  {
  }

  /** A written Data message parses to its two fields and leaves any following fields over. */
  lemma DataFields(portnum: nat, payload: seq<byte>, rest: seq<byte>)
    requires portnum < WORD && |payload| < WORD
    ensures ParseFields(SerializeData(portnum, payload) + rest) ==
            match ParseFields(rest)
            case None => None
            case Some(fields) => Some([Field(1, Number(portnum))] + ([Field(2, Delimited(payload))] + fields))
  {
    var tail := DelimitedField(0x12, payload) + rest;
    assert SerializeData(portnum, payload) + rest == [0x08] + Varint(portnum) + tail;
    NumberFieldParses(0x08, portnum, tail);
    DelimitedFieldParses(0x12, payload, rest);
  }

  lemma DataFieldsOfPort(portnum: nat)
    requires portnum < 0x80
    ensures ParseData([0x08, portnum as byte]) == Some(Data(portnum, []))
  {
    NumberFieldParses(0x08, portnum, []);
    assert [0x08] + Varint(portnum) + [] == [0x08, portnum as byte];
    var f := Field(1, Number(portnum));
    assert [f] + [] == [f];
    LastOfOne(f, 1, 0, []);
    LastOfOne(f, 2, 0, []);
  }

  /** Every Data message the builder writes parses back to its port number and payload. */
  lemma DataRoundTrip(portnum: nat, payload: seq<byte>)
    requires portnum < 0x8000_0000 && |payload| < WORD
    ensures ParseData(SerializeData(portnum, payload)) == Some(Data(portnum, payload))
  {
    DataFields(portnum, payload, []);
    assert SerializeData(portnum, payload) + [] == SerializeData(portnum, payload);
    Int32Small(portnum);
    var f1, f2 := Field(1, Number(portnum)), Field(2, Delimited(payload));
    assert [f2] + [] == [f2];
    LastOfCons(f1, [f2], 1, 0, []);
    LastOfCons(f1, [f2], 2, 0, []);
    LastOfOne(f2, 1, portnum, []);
    LastOfOne(f2, 2, 0, []);
  }

  datatype User = User(id: seq<byte>, longName: seq<byte>, shortName: seq<byte>, hwModel: int)

  function SerializeUser(user: User): seq<byte> {
    DelimitedField(0x0A, user.id) + (DelimitedField(0x12, user.longName) + (DelimitedField(0x1A, user.shortName)
    + ([0x28] + Varint(user.hwModel))))
  }

  /** The fields left to write from the i-th of the three strings on. */
  function UserTail(user: User, i: nat): seq<byte>
    decreases 3 - i
  {
    if i == 0 then DelimitedField(0x0A, user.id) + UserTail(user, 1)
    else if i == 1 then DelimitedField(0x12, user.longName) + UserTail(user, 2)
    else if i == 2 then DelimitedField(0x1A, user.shortName) + UserTail(user, 3)
    else [0x28] + Varint(user.hwModel)
  }

  /** Appending the next field leaves the same message to be completed. */
  lemma NextField(result: seq<byte>, key: byte, text: seq<byte>, tail: seq<byte>)
    ensures result + ([key] + Varint(|text|) + text) + tail == result + (DelimitedField(key, text) + tail)
  {
    Regroup(result, DelimitedField(key, text), tail);
  }

  method EncodeUser(user: User) returns (result: seq<byte>)
    ensures result == SerializeUser(user)
  {
    result := [];
    var fields: seq<(byte, seq<byte>)> := [(0x0A, user.id), (0x12, user.longName), (0x1A, user.shortName)];
    for i := 0 to 3
      invariant result + UserTail(user, i) == UserTail(user, 0)
    {
      var (key, text) := fields[i];
      var length := EncodeVarint(|text|);
      NextField(result, key, text, UserTail(user, i + 1));
      result := result + ([key] + length + text);
    }
    var model := EncodeVarint(user.hwModel);
    result := result + ([0x28] + model);
  }

  function ParseUser(s: seq<byte>): Option<User> {
    match ParseFields(s)
    case None => None
    case Some(fields) =>
      Some(User(LastContent(fields, 1, []), LastContent(fields, 2, []), LastContent(fields, 3, []),
                Int32(LastNumber(fields, 5, 0))))
  }

  lemma UserFields(user: User)
    requires |user.id| < WORD && |user.longName| < WORD && |user.shortName| < WORD && 0 <= user.hwModel < WORD
    ensures ParseFields(SerializeUser(user))
            == Some([Field(1, Delimited(user.id))] + ([Field(2, Delimited(user.longName))] +
                    ([Field(3, Delimited(user.shortName))] + [Field(5, Number(user.hwModel))])))
  {
    var s5 := [0x28] + Varint(user.hwModel);
    NumberFieldParses(0x28, user.hwModel, []);
    assert s5 + [] == s5 && [Field(5, Number(user.hwModel))] + [] == [Field(5, Number(user.hwModel))];
    DelimitedFieldParses(0x1A, user.shortName, s5);
    var s3 := DelimitedField(0x1A, user.shortName) + s5;
    DelimitedFieldParses(0x12, user.longName, s3);
    DelimitedFieldParses(0x0A, user.id, DelimitedField(0x12, user.longName) + s3);
  }

  lemma UserContent(f1: Field, f2: Field, f3: Field, f5: Field)
    requires f1.tag == 1 && f2.tag == 2 && f3.tag == 3 && f5.tag == 5
    requires f1.value.Delimited? && f2.value.Delimited? && f3.value.Delimited? && f5.value.Number?
    ensures var fields := [f1] + ([f2] + ([f3] + [f5]));
            && LastContent(fields, 1, []) == f1.value.content
            && LastContent(fields, 2, []) == f2.value.content
            && LastContent(fields, 3, []) == f3.value.content
            && LastNumber(fields, 5, 0) == f5.value.number
  {
    var c1, c2, c3 := f1.value.content, f2.value.content, f3.value.content;
    LastOfCons(f1, [f2] + ([f3] + [f5]), 1, 0, []);
    LastOfCons(f2, [f3] + [f5], 1, 0, c1);
    LastOfCons(f3, [f5], 1, 0, c1);
    LastOfOne(f5, 1, 0, c1);
    LastOfCons(f1, [f2] + ([f3] + [f5]), 2, 0, []);
    LastOfCons(f2, [f3] + [f5], 2, 0, []);
    LastOfCons(f3, [f5], 2, 0, c2);
    LastOfOne(f5, 2, 0, c2);
    LastOfCons(f1, [f2] + ([f3] + [f5]), 3, 0, []);
    LastOfCons(f2, [f3] + [f5], 3, 0, []);
    LastOfCons(f3, [f5], 3, 0, []);
    LastOfOne(f5, 3, 0, c3);
    LastOfCons(f1, [f2] + ([f3] + [f5]), 5, 0, []);
    LastOfCons(f2, [f3] + [f5], 5, 0, []);
    LastOfCons(f3, [f5], 5, 0, []);
    LastOfOne(f5, 5, 0, []);
  }

  /** Every User message the builder writes parses back to all four of its fields. */
  lemma UserRoundTrip(user: User)
    requires |user.id| < WORD && |user.longName| < WORD && |user.shortName| < WORD && 0 <= user.hwModel < 0x8000_0000
    ensures ParseUser(SerializeUser(user)) == Some(user)
  {
    UserFields(user);
    UserContent(Field(1, Delimited(user.id)), Field(2, Delimited(user.longName)),
                Field(3, Delimited(user.shortName)), Field(5, Number(user.hwModel)));
    Int32Small(user.hwModel);
  }
}

/** The schema-free walker over a conversation summary file in the Protocol Buffers wire format: base
    128 varints, length-delimited fields, and the nested path to a workspace. A bad record is dropped
    alone; a bad frame of the file itself ends the walk. */
module Antigravity {
  import opened Wrappers

  type Byte = b: nat | b < 256

  type Bytes = seq<Byte>

  datatype Error = IndexError | ValueError

  const VARINT_MAX_BYTES := 10

  /** UTF-8 decoding, known only by what it makes of each byte string. */
  type Decoder = Bytes -> Option<string>

  // ---- Varints ----------------------------------------------------------------------------

  /** The varint whose next byte is `read` bytes past `pos`. */
  function Varint(data: Bytes, pos: nat, read: nat): (r: Result<(nat, nat), Error>)
    requires read <= VARINT_MAX_BYTES
    ensures r.Ok? ==> pos + read < r.value.1 <= |data|
    decreases VARINT_MAX_BYTES - read
  {
    if read == VARINT_MAX_BYTES then Err(ValueError)
    else if pos + read >= |data| then Err(IndexError)
    else
      var b := data[pos + read];
      if b < 128 then Ok((b, pos + read + 1))
      else
        match Varint(data, pos, read + 1)
        case Ok(rest) => Ok((b - 128 + 128 * rest.0, rest.1))
        case Err(e) => Err(e)
  }

  function Pow128(n: nat): nat { if n == 0 then 1 else 128 * Pow128(n - 1) }

  /** What is left to read, put above the bits read so far. */
  function Above(value: nat, scale: nat, rest: Result<(nat, nat), Error>): Result<(nat, nat), Error> {
    match rest
    case Ok(r) => Ok((value + scale * r.0, r.1))
    case Err(e) => Err(e)
  }

  /** `value | ((byte & 0x7F) << shift)`, where `value` is below the scale `1 << shift`. */
  function OrBits(value: nat, scale: nat, b: nat): nat { value + (b % 128) * scale }

  method ReadVarint(data: Bytes, pos: nat) returns (r: Result<(nat, nat), Error>)
    ensures r == Varint(data, pos, 0)
  {
    hide OrBits, Above, Varint;
    var value: nat, scale: nat := 0, 1;
    AboveNothing(Varint(data, pos, 0));
    for read := 0 to VARINT_MAX_BYTES
      invariant scale == Pow128(read) && value < scale
      invariant Above(value, scale, Varint(data, pos, read)) == Varint(data, pos, 0)
    {
      if pos + read >= |data| {
        AboveShort(data, pos, read, value, scale);
        return Err(IndexError);
      }
      var b: nat := data[pos + read];
      AboveStep(data, pos, read, value, scale);
      OrBelow(value, scale, b);
      value := OrBits(value, scale, b);
      if b < 128 { return Ok((value, pos + read + 1)); }
      scale := scale * 128;
    }
    AboveEnd(data, pos, value, scale);
    return Err(ValueError);
  }

  lemma AboveEnd(data: Bytes, pos: nat, value: nat, scale: nat)
    ensures Above(value, scale, Varint(data, pos, VARINT_MAX_BYTES)) == Err(ValueError)
  {}

  lemma AboveShort(data: Bytes, pos: nat, read: nat, value: nat, scale: nat)
    requires read < VARINT_MAX_BYTES && pos + read >= |data|
    ensures Above(value, scale, Varint(data, pos, read)) == Err(IndexError)
  {}

  lemma AboveNothing(r: Result<(nat, nat), Error>)
    ensures Above(0, 1, r) == r
  {}

  lemma AboveStep(data: Bytes, pos: nat, read: nat, value: nat, scale: nat)
    requires read < VARINT_MAX_BYTES && pos + read < |data|
    ensures var b := data[pos + read];
            Above(value, scale, Varint(data, pos, read))
            == if b < 128 then Ok((OrBits(value, scale, b), pos + read + 1))
               else Above(OrBits(value, scale, b), scale * 128, Varint(data, pos, read + 1))
  {
    hide Varint, OrBits;
    VarintByte(data, pos, read);
    var b: nat := data[pos + read];
    var rest := Varint(data, pos, read + 1);
    OrBitsAre(value, scale, b, if rest.Ok? then rest.value.0 else 0);
  }

  /** The bits read stay below the scale, so the next seven never overlap them. */
  lemma OrBelow(value: nat, scale: nat, b: nat)
    requires value < scale
    ensures OrBits(value, scale, b) < scale * 128
  {
    LowBits(b % 128, scale);
  }

  lemma LowBits(low: nat, scale: nat)
    requires low < 128
    ensures low * scale + scale <= scale * 128
  {
    var room: nat := 127 - low;
    assert room * scale >= 0;
    assert (low + room + 1) * scale == low * scale + room * scale + scale;
  }

  lemma OrBitsAre(value: nat, scale: nat, b: nat, rest: nat)
    requires b < 256
    ensures b < 128 ==> OrBits(value, scale, b) == value + scale * b
    ensures b >= 128 ==> value + scale * (b - 128 + 128 * rest) == OrBits(value, scale, b) + scale * 128 * rest
  {
    if b >= 128 {
      var low := b - 128;
      assert b % 128 == low;
      assert scale * (low + 128 * rest) == scale * low + scale * (128 * rest);
      assert scale * (128 * rest) == scale * 128 * rest;
    }
  }

  /** The shortest encoding. */
  function EncodeVarint(v: nat): (e: Bytes)
    ensures |e| > 0
  {
    if v < 128 then [v] else [v % 128 + 128] + EncodeVarint(v / 128)
  }

  /** One byte of a varint. */
  lemma VarintByte(data: Bytes, pos: nat, read: nat)
    requires read < VARINT_MAX_BYTES && pos + read < |data|
    ensures var b, rest := data[pos + read], Varint(data, pos, read + 1);
            && (b < 128 ==> Varint(data, pos, read) == Ok((b, pos + read + 1)))
            && (b >= 128 && rest.Ok? ==>
                  Varint(data, pos, read) == Ok((b - 128 + 128 * rest.value.0, rest.value.1)))
            && (b >= 128 && rest.Err? ==> Varint(data, pos, read) == rest)
  {}

  lemma {:induction false} VarintReads(v: nat, before: Bytes, after: Bytes, pos: nat, read: nat)
    requires read <= VARINT_MAX_BYTES && |before| == pos + read && (v > 0 || read < VARINT_MAX_BYTES)
    ensures var r := Varint(before + EncodeVarint(v) + after, pos, read);
            if v < Pow128(VARINT_MAX_BYTES - read)
            then r == Ok((v, |before| + |EncodeVarint(v)|))
            else r == Err(ValueError)
    decreases v
  {
    hide Varint, EncodeVarint;
    VarintTooLong(before + EncodeVarint(v) + after, pos);
    var data := before + EncodeVarint(v) + after;
    if read == VARINT_MAX_BYTES {
    } else {
      PowPositive(VARINT_MAX_BYTES - read - 1);
      PowStep(VARINT_MAX_BYTES - read);
      EncodeStep(v, before, after);
      VarintByte(data, pos, read);
      if v >= 128 {
        var b: Byte := v % 128 + 128;
        VarintReads(v / 128, before + [b], after, pos, read + 1);
        DivLess(v, Pow128(VARINT_MAX_BYTES - read - 1));
      }
    }
  }

  lemma VarintTooLong(data: Bytes, pos: nat)
    ensures Varint(data, pos, VARINT_MAX_BYTES) == Err(ValueError)
  {}

  lemma PowStep(n: nat)
    requires n > 0
    ensures Pow128(n) == 128 * Pow128(n - 1)
  {}

  lemma EncodeStep(v: nat, before: Bytes, after: Bytes)
    ensures var data := before + EncodeVarint(v) + after;
            && |data| > |before|
            && (v < 128 ==> data[|before|] == v && |EncodeVarint(v)| == 1)
            && (v >= 128 ==>
                  && data[|before|] == v % 128 + 128 && |EncodeVarint(v)| == 1 + |EncodeVarint(v / 128)|
                  && data == before + [v % 128 + 128] + EncodeVarint(v / 128) + after)
  {
    if v >= 128 {
      assert before + EncodeVarint(v) + after == before + [v % 128 + 128] + EncodeVarint(v / 128) + after;
    }
  }

  lemma DivLess(v: nat, p: nat)
    ensures v / 128 < p <==> v < 128 * p
  {}

  lemma PowPositive(n: nat)
    ensures Pow128(n) >= 1
  {}

  /** Reading inverts encoding exactly for the values ten bytes can hold, wherever the varint stands
      and whatever follows; a larger one is refused. */
  lemma VarintRoundTrip(v: nat, before: Bytes, after: Bytes)
    ensures var r := Varint(before + EncodeVarint(v) + after, |before|, 0);
            && (v < Pow128(VARINT_MAX_BYTES) <==> r == Ok((v, |before| + |EncodeVarint(v)|)))
            && (v >= Pow128(VARINT_MAX_BYTES) ==> r == Err(ValueError))
  {
    VarintReads(v, before, after, |before|, 0);
  }

  // ---- Length-delimited fields ------------------------------------------------------------

  /** What the field iterator does next: end, raise, or yield and stand at `next`. */
  datatype Step = NoMore | Fault(error: Error) | Got(number: nat, payload: Bytes, next: nat)

  /** From `pos`, past every field that is not length-delimited. */
  function NextField(data: Bytes, pos: nat): (s: Step)
    ensures s.Got? ==> pos < s.next <= |data|
    decreases |data| - pos
  {
    if pos >= |data| then NoMore
    else
      match Varint(data, pos, 0)
      case Err(e) => Fault(e)
      case Ok(tag) =>
        var wireType := tag.0 % 8;
        if wireType == 0 then
          match Varint(data, tag.1, 0)
          case Err(e) => Fault(e)
          case Ok(skipped) => NextField(data, skipped.1)
        else if wireType == 1 then NextField(data, tag.1 + 8)
        else if wireType == 2 then
          match Varint(data, tag.1, 0)
          case Err(e) => Fault(e)
          case Ok(size) =>
            if size.1 + size.0 > |data| then Fault(IndexError)
            else Got(tag.0 / 8, data[size.1..size.1 + size.0], size.1 + size.0)
        else if wireType == 5 then NextField(data, tag.1 + 4)
        else Fault(ValueError)
  }

  method Resume(data: Bytes, start: nat) returns (s: Step)
    ensures s == NextField(data, start)
  {
    hide Varint;
    var pos := start;
    while pos < |data|
      invariant NextField(data, pos) == NextField(data, start)
      decreases |data| - pos
    {
      var tag := ReadVarint(data, pos);
      if tag.Err? { return Fault(tag.error); }
      var wireType := tag.value.0 % 8;
      pos := tag.value.1;
      if wireType == 0 {
        var skipped := ReadVarint(data, pos);
        if skipped.Err? { return Fault(skipped.error); }
        pos := skipped.value.1;
      } else if wireType == 1 {
        pos := pos + 8;
      } else if wireType == 2 {
        var size := ReadVarint(data, pos);
        if size.Err? { return Fault(size.error); }
        var end := size.value.1 + size.value.0;
        if end > |data| { return Fault(IndexError); }
        return Got(tag.value.0 / 8, data[size.value.1..end], end);
      } else if wireType == 5 {
        pos := pos + 4;
      } else {
        return Fault(ValueError);
      }
    }
    return NoMore;
  }

  // ---- Conversation records ---------------------------------------------------------------

  /** What a search of one submessage found; a string that does not decode still ends it. */
  datatype Found = Absent | Present(uri: Option<string>) | Broken(error: Error)

  /** The first field 1. */
  function FirstUri(utf8: Decoder, data: Bytes, pos: nat): Found
    decreases |data| - pos
  {
    match NextField(data, pos)
    case NoMore => Absent
    case Fault(e) => Broken(e)
    case Got(number, payload, next) =>
      if number == 1 then Present(utf8(payload)) else FirstUri(utf8, data, next)
  }

  /** The first field 1 of the first field 9 that has one. */
  function Workspace(utf8: Decoder, data: Bytes, pos: nat): Found
    decreases |data| - pos
  {
    match NextField(data, pos)
    case NoMore => Absent
    case Fault(e) => Broken(e)
    case Got(number, payload, next) =>
      if number != 9 then Workspace(utf8, data, next)
      else
        match FirstUri(utf8, payload, 0)
        case Absent => Workspace(utf8, data, next)
        case Present(uri) => Present(uri)
        case Broken(e) => Broken(e)
  }

  function Paired(id: Option<string>, uri: Option<string>): Option<(string, string)> {
    if id.Some? && uri.Some? then Some((id.value, uri.value)) else None
  }

  function UriOf(f: Found): Option<string> {
    if f.Present? then f.uri else None
  }

  /** The last field 1 and the last field 2, in any order; nothing when the frame is broken. */
  function Record(utf8: Decoder, data: Bytes, pos: nat, id: Option<string>, uri: Option<string>)
    : Option<(string, string)>
    decreases |data| - pos
  {
    match NextField(data, pos)
    case NoMore => Paired(id, uri)
    case Fault(_) => None
    case Got(number, payload, next) =>
      if number == 1 then Record(utf8, data, next, utf8(payload), uri)
      else if number == 2 then
        var found := Workspace(utf8, payload, 0);
        if found.Broken? then None else Record(utf8, data, next, id, UriOf(found))
      else Record(utf8, data, next, id, uri)
  }

  function Put(m: map<string, string>, record: Option<(string, string)>): map<string, string> {
    if record.Some? then m[record.value.0 := record.value.1] else m
  }

  function Summaries(utf8: Decoder, data: Bytes, pos: nat, m: map<string, string>): Result<map<string, string>, Error>
    decreases |data| - pos
  {
    match NextField(data, pos)
    case NoMore => Ok(m)
    case Fault(e) => Err(e)
    case Got(number, payload, next) =>
      Summaries(utf8, data, next, if number == 1 then Put(m, Record(utf8, payload, 0, None, None)) else m)
  }

  method ExtractWorkspaceUri(utf8: Decoder, data: Bytes) returns (r: Result<Option<string>, Error>)
    ensures r == (match Workspace(utf8, data, 0)
                  case Broken(e) => Err(e)
                  case found => Ok(UriOf(found)))
  {
    var pos := 0;
    while true
      invariant Workspace(utf8, data, pos) == Workspace(utf8, data, 0)
      decreases |data| - pos
    {
      var field := Resume(data, pos);
      match field
      case NoMore => return Ok(None);
      case Fault(e) => return Err(e);
      case Got(number, payload, next) =>
        if number == 9 {
          var inner := 0;
          while true
            invariant FirstUri(utf8, payload, inner) == FirstUri(utf8, payload, 0)
            decreases |payload| - inner
          {
            var innerField := Resume(payload, inner);
            if innerField.Fault? { return Err(innerField.error); }
            if innerField.NoMore? { break; }
            if innerField.number == 1 { return Ok(utf8(innerField.payload)); }
            inner := innerField.next;
          }
          assert FirstUri(utf8, payload, 0) == Absent;
        }
        pos := next;
    }
  }

  method DecodeRecord(utf8: Decoder, record: Bytes) returns (r: Option<(string, string)>)
    ensures r == Record(utf8, record, 0, None, None)
  {
    var id: Option<string>, uri: Option<string> := None, None;
    var pos := 0;
    while true
      invariant Record(utf8, record, pos, id, uri) == Record(utf8, record, 0, None, None)
      decreases |record| - pos
    {
      var field := Resume(record, pos);
      match field
      case NoMore => return Paired(id, uri);
      case Fault(_) => return None;
      case Got(number, payload, next) =>
        if number == 1 {
          id := utf8(payload);
        } else if number == 2 {
          var extracted := ExtractWorkspaceUri(utf8, payload);
          if extracted.Err? { return None; }
          uri := extracted.value;
        }
        pos := next;
    }
  }

  /** The whole file. */
  method WalkLengthDelimited(utf8: Decoder, data: Bytes) returns (r: Result<map<string, string>, Error>)
    ensures r == Summaries(utf8, data, 0, map[])
  {
    var mapping: map<string, string> := map[];
    var pos := 0;
    while true
      invariant Summaries(utf8, data, pos, mapping) == Summaries(utf8, data, 0, map[])
      decreases |data| - pos
    {
      var field := Resume(data, pos);
      match field
      case NoMore => return Ok(mapping);
      case Fault(e) => return Err(e);
      case Got(number, payload, next) =>
        if number == 1 {
          var record := DecodeRecord(utf8, payload);
          if record.Some? { mapping := mapping[record.value.0 := record.value.1]; }
        }
        pos := next;
    }
  }

  // ---- The wire format --------------------------------------------------------------------

  datatype Field =
    | Scalar(number: nat, value: nat)
    | Fixed64(number: nat, bytes: Bytes)
    | Delimited(number: nat, payload: Bytes)
    | Fixed32(number: nat, bytes: Bytes)
  {
    function WireType(): nat {
      match this
      case Scalar(_, _) => 0
      case Fixed64(_, _) => 1
      case Delimited(_, _) => 2
      case Fixed32(_, _) => 5
    }

    predicate WellFormed() {
      && number * 8 + WireType() < Pow128(VARINT_MAX_BYTES)
      && match this
         case Scalar(_, value) => value < Pow128(VARINT_MAX_BYTES)
         case Fixed64(_, bytes) => |bytes| == 8
         case Delimited(_, payload) => |payload| < Pow128(VARINT_MAX_BYTES)
         case Fixed32(_, bytes) => |bytes| == 4
    }

    function Body(): Bytes {
      match this
      case Scalar(_, value) => EncodeVarint(value)
      case Fixed64(_, bytes) => bytes
      case Delimited(_, payload) => EncodeVarint(|payload|) + payload
      case Fixed32(_, bytes) => bytes
    }

    function Encode(): Bytes { Framed(number, WireType(), Body()) }
  }

  function Framed(number: nat, wireType: nat, body: Bytes): Bytes {
    EncodeVarint(number * 8 + wireType) + body
  }

  predicate AllWellFormed(fs: seq<Field>) { forall i | 0 <= i < |fs| :: fs[i].WellFormed() }

  function EncodeAll(fs: seq<Field>): Bytes {
    if fs == [] then [] else fs[0].Encode() + EncodeAll(fs[1..])
  }

  /** The payloads of the fields of one number, in order. */
  function Payloads(fs: seq<Field>, number: nat): seq<Bytes> {
    if fs == [] then []
    else (if fs[0].Delimited? && fs[0].number == number then [fs[0].payload] else []) + Payloads(fs[1..], number)
  }

  /** What follows a tag. */
  lemma AfterTag(data: Bytes, pos: nat, number: nat, wireType: nat, p: nat)
    requires pos < |data| && wireType < 8 && Varint(data, pos, 0) == Ok((number * 8 + wireType, p))
    ensures wireType == 1 ==> NextField(data, pos) == NextField(data, p + 8)
    ensures wireType == 5 ==> NextField(data, pos) == NextField(data, p + 4)
    ensures wireType == 0 && Varint(data, p, 0).Ok? ==>
              NextField(data, pos) == NextField(data, Varint(data, p, 0).value.1)
    ensures wireType == 2 && Varint(data, p, 0).Ok? ==>
              var size := Varint(data, p, 0).value;
              NextField(data, pos) == if size.1 + size.0 > |data| then Fault(IndexError)
                                      else Got(number, data[size.1..size.1 + size.0], size.1 + size.0)
  {
    hide Varint;
    assert (number * 8 + wireType) % 8 == wireType && (number * 8 + wireType) / 8 == number;
  }

  /** A tag, read where it stands. */
  lemma TagReads(before: Bytes, number: nat, wireType: nat, body: Bytes, after: Bytes)
    requires wireType < 8 && number * 8 + wireType < Pow128(VARINT_MAX_BYTES)
    ensures var f, n := Framed(number, wireType, body), |EncodeVarint(number * 8 + wireType)|;
            && |f| == n + |body| && n > 0
            && Varint(before + f + after, |before|, 0) == Ok((number * 8 + wireType, |before| + n))
  {
    hide Varint, EncodeVarint, Pow128;
    var tag := EncodeVarint(number * 8 + wireType);
    VarintRoundTrip(number * 8 + wireType, before, body + after);
    assert before + (tag + body) + after == before + tag + (body + after);
  }

  /** The body stands right after the tag. */
  lemma BodyStands(before: Bytes, number: nat, wireType: nat, body: Bytes, after: Bytes)
    ensures before + Framed(number, wireType, body) + after
            == (before + EncodeVarint(number * 8 + wireType)) + body + after
  {
    hide EncodeVarint;
    ConcatAssoc(before, EncodeVarint(number * 8 + wireType), body);
  }

  lemma ScalarReads(number: nat, value: nat, before: Bytes, after: Bytes)
    requires Scalar(number, value).WellFormed()
    ensures var f := Framed(number, 0, EncodeVarint(value));
            NextField(before + f + after, |before|) == NextField(before + f + after, |before| + |f|)
  {
    hide Varint, EncodeVarint, Pow128, NextField, Framed;
    var body, tag := EncodeVarint(value), EncodeVarint(number * 8 + 0);
    var data := before + Framed(number, 0, body) + after;
    TagReads(before, number, 0, body, after);
    BodyStands(before, number, 0, body, after);
    VarintRoundTrip(value, before + tag, after);
    AfterTag(data, |before|, number, 0, |before| + |tag|);
  }

  lemma FixedReads(number: nat, wireType: nat, bytes: Bytes, before: Bytes, after: Bytes)
    requires number * 8 + wireType < Pow128(VARINT_MAX_BYTES)
    requires (wireType == 1 && |bytes| == 8) || (wireType == 5 && |bytes| == 4)
    ensures var f := Framed(number, wireType, bytes);
            NextField(before + f + after, |before|) == NextField(before + f + after, |before| + |f|)
  {
    hide Varint, EncodeVarint, Pow128, NextField, Framed;
    TagReads(before, number, wireType, bytes, after);
    AfterTag(before + Framed(number, wireType, bytes) + after, |before|, number, wireType,
             |before| + |EncodeVarint(number * 8 + wireType)|);
  }

  lemma DelimitedReads(number: nat, payload: Bytes, before: Bytes, after: Bytes)
    requires Delimited(number, payload).WellFormed()
    ensures var f := Framed(number, 2, EncodeVarint(|payload|) + payload);
            NextField(before + f + after, |before|) == Got(number, payload, |before| + |f|)
  {
    hide Varint, EncodeVarint, Pow128, NextField, Framed;
    var size, tag := EncodeVarint(|payload|), EncodeVarint(number * 8 + 2);
    var data := before + Framed(number, 2, size + payload) + after;
    TagReads(before, number, 2, size + payload, after);
    BodyStands(before, number, 2, size + payload, after);
    PayloadStands(before + tag, size, payload, after);
    VarintRoundTrip(|payload|, before + tag, payload + after);
    AfterTag(data, |before|, number, 2, |before| + |tag|);
  }

  lemma PayloadStands(before: Bytes, size: Bytes, payload: Bytes, after: Bytes)
    ensures var data, q := before + (size + payload) + after, |before| + |size|;
            && data == before + size + (payload + after)
            && q + |payload| <= |data| && data[q..q + |payload|] == payload
  {}

  lemma ScalarField(f: Field, before: Bytes, after: Bytes)
    requires f.Scalar? && f.WellFormed()
    ensures var data, next := before + f.Encode() + after, |before| + |f.Encode()|;
            NextField(data, |before|) == NextField(data, next)
  {
    hide NextField, Varint, EncodeVarint, Pow128, Framed, Payloads, EncodeAll;
    assert f.Encode() == Framed(f.number, 0, EncodeVarint(f.value));
    ScalarReads(f.number, f.value, before, after);
  }

  lemma DelimitedField(f: Field, before: Bytes, after: Bytes)
    requires f.Delimited? && f.WellFormed()
    ensures var data, next := before + f.Encode() + after, |before| + |f.Encode()|;
            NextField(data, |before|) == Got(f.number, f.payload, next)
  {
    hide NextField, Varint, EncodeVarint, Pow128, Framed, Payloads, EncodeAll;
    assert f.Encode() == Framed(f.number, 2, EncodeVarint(|f.payload|) + f.payload);
    DelimitedReads(f.number, f.payload, before, after);
  }

  lemma Fixed64Field(f: Field, before: Bytes, after: Bytes)
    requires f.Fixed64? && f.WellFormed()
    ensures var data, next := before + f.Encode() + after, |before| + |f.Encode()|;
            NextField(data, |before|) == NextField(data, next)
  {
    hide NextField, Varint, EncodeVarint, Pow128, Framed, Payloads, EncodeAll;
    assert f.Encode() == Framed(f.number, 1, f.bytes);
    FixedReads(f.number, 1, f.bytes, before, after);
  }

  lemma Fixed32Field(f: Field, before: Bytes, after: Bytes)
    requires f.Fixed32? && f.WellFormed()
    ensures var data, next := before + f.Encode() + after, |before| + |f.Encode()|;
            NextField(data, |before|) == NextField(data, next)
  {
    hide NextField, Varint, EncodeVarint, Pow128, Framed, Payloads, EncodeAll;
    assert f.Encode() == Framed(f.number, 5, f.bytes);
    FixedReads(f.number, 5, f.bytes, before, after);
  }

  /** A field that is not length-delimited is passed over; a length-delimited one is yielded whole. */
  lemma FieldReads(f: Field, before: Bytes, after: Bytes)
    requires f.WellFormed()
    ensures var data, next := before + f.Encode() + after, |before| + |f.Encode()|;
            NextField(data, |before|)
            == if f.Delimited? then Got(f.number, f.payload, next) else NextField(data, next)
  {
    hide NextField, Varint, EncodeVarint, Pow128, Framed, Payloads, EncodeAll, Field.Encode, Field.WellFormed, Field.Body,
      Field.WireType;
    match f
    case Scalar(_, _) => ScalarField(f, before, after);
    case Delimited(_, _) => DelimitedField(f, before, after);
    case Fixed64(_, _) => Fixed64Field(f, before, after);
    case Fixed32(_, _) => Fixed32Field(f, before, after);
  }

  lemma FirstFieldReads(fs: seq<Field>, before: Bytes)
    requires AllWellFormed(fs) && fs != []
    ensures var data, next := before + EncodeAll(fs), |before| + |fs[0].Encode()|;
            && NextField(data, |before|)
               == (if fs[0].Delimited? then Got(fs[0].number, fs[0].payload, next) else NextField(data, next))
            && data == (before + fs[0].Encode()) + EncodeAll(fs[1..]) && AllWellFormed(fs[1..])
            && next == |before + fs[0].Encode()|
  {
    hide NextField, Varint, EncodeVarint, Pow128, Framed;
    ConcatAssoc(before, fs[0].Encode(), EncodeAll(fs[1..]));
    FieldReads(fs[0], before, EncodeAll(fs[1..]));
  }

  lemma NoPayloads(number: nat)
    ensures Payloads([], number) == []
  {}

  lemma PayloadsFirst(fs: seq<Field>, number: nat)
    requires fs != []
    ensures fs[0].Delimited? && fs[0].number == number ==>
              Payloads(fs, number) == [fs[0].payload] + Payloads(fs[1..], number)
    ensures !(fs[0].Delimited? && fs[0].number == number) ==> Payloads(fs, number) == Payloads(fs[1..], number)
  {}

  lemma NoFieldReads(before: Bytes)
    ensures NextField(before + EncodeAll([]), |before|) == NoMore
  {}

  // ---- Decoding what was encoded ----------------------------------------------------------

  /** The first of `uris`, whatever stands between them. */
  lemma {:induction false} FirstUriReads(utf8: Decoder, fs: seq<Field>, before: Bytes)
    requires AllWellFormed(fs)
    ensures var uris := Payloads(fs, 1);
            FirstUri(utf8, before + EncodeAll(fs), |before|)
            == if uris == [] then Absent else Present(utf8(uris[0]))
    decreases |fs|
  {
    hide EncodeAll, AllWellFormed, NextField, Payloads;
    NoPayloads(1);
    if fs == [] {
      NoFieldReads(before);
    } else {
      FirstFieldReads(fs, before);
      PayloadsFirst(fs, 1);
      FirstUriReads(utf8, fs[1..], before + fs[0].Encode());
      SkipFirstUri(utf8, before + EncodeAll(fs), |before|, |before| + |fs[0].Encode()|);
    }
  }

  /** Where the iterator does the same from two places, so does a search. */
  lemma SkipFirstUri(utf8: Decoder, data: Bytes, a: nat, b: nat)
    ensures NextField(data, a) == NextField(data, b) ==> FirstUri(utf8, data, a) == FirstUri(utf8, data, b)
    ensures NextField(data, a) == NextField(data, b) ==> Workspace(utf8, data, a) == Workspace(utf8, data, b)
    ensures NextField(data, a) == NextField(data, b) ==>
              forall id, uri :: Record(utf8, data, a, id, uri) == Record(utf8, data, b, id, uri)
    ensures NextField(data, a) == NextField(data, b) ==>
              forall m :: Summaries(utf8, data, a, m) == Summaries(utf8, data, b, m)
  {
    hide NextField;
  }

  /** The first submessage that holds a field 1, or breaks. */
  function FirstFound(utf8: Decoder, nested: seq<Bytes>): Found {
    if nested == [] then Absent
    else if FirstUri(utf8, nested[0], 0).Absent? then FirstFound(utf8, nested[1..])
    else FirstUri(utf8, nested[0], 0)
  }

  lemma {:induction false} WorkspaceReads(utf8: Decoder, fs: seq<Field>, before: Bytes)
    requires AllWellFormed(fs)
    ensures Workspace(utf8, before + EncodeAll(fs), |before|) == FirstFound(utf8, Payloads(fs, 9))
    decreases |fs|
  {
    hide EncodeAll, AllWellFormed, FirstUri, NextField, Payloads;
    NoPayloads(9);
    if fs == [] {
      NoFieldReads(before);
    } else {
      FirstFieldReads(fs, before);
      PayloadsFirst(fs, 9);
      WorkspaceReads(utf8, fs[1..], before + fs[0].Encode());
      SkipFirstUri(utf8, before + EncodeAll(fs), |before|, |before| + |fs[0].Encode()|);
    }
  }

  predicate AnyBroken(utf8: Decoder, nested: seq<Bytes>) {
    exists i :: 0 <= i < |nested| && Workspace(utf8, nested[i], 0).Broken?
  }

  /** The last id with the last workspace, unless a workspace field is broken. */
  function PairUp(utf8: Decoder, ids: seq<Bytes>, nested: seq<Bytes>, id: Option<string>, uri: Option<string>)
    : Option<(string, string)>
  {
    if AnyBroken(utf8, nested) then None
    else Paired(if ids == [] then id else utf8(ids[|ids| - 1]),
                if nested == [] then uri else UriOf(Workspace(utf8, nested[|nested| - 1], 0)))
  }

  /** A record is decided by its field 1s and its field 2s, each in their order: how they interleave,
      and what other fields stand between them, makes no difference. */
  lemma {:induction false} RecordReads(utf8: Decoder, fs: seq<Field>, before: Bytes, id: Option<string>, uri: Option<string>)
    requires AllWellFormed(fs)
    ensures Record(utf8, before + EncodeAll(fs), |before|, id, uri)
            == PairUp(utf8, Payloads(fs, 1), Payloads(fs, 2), id, uri)
    decreases |fs|
  {
    hide EncodeAll, AllWellFormed, Workspace, PairUp, NextField, Payloads;
    NoPayloads(1);
    NoPayloads(2);
    if fs == [] {
      NoFieldReads(before);
      PairNone(utf8, id, uri);
    } else {
      var f, rest := fs[0], fs[1..];
      FirstFieldReads(fs, before);
      PayloadsFirst(fs, 1);
      PayloadsFirst(fs, 2);
      SkipFirstUri(utf8, before + EncodeAll(fs), |before|, |before| + |f.Encode()|);
      var found := if f.Delimited? then Workspace(utf8, f.payload, 0) else Absent;
      var id' := if f.Delimited? && f.number == 1 then utf8(f.payload) else id;
      var uri' := if f.Delimited? && f.number == 2 then UriOf(found) else uri;
      RecordReads(utf8, rest, before + f.Encode(), id', uri');
      PairFirst(utf8, f, Payloads(rest, 1), Payloads(rest, 2), id, uri);
    }
  }

  lemma PairNone(utf8: Decoder, id: Option<string>, uri: Option<string>)
    ensures PairUp(utf8, [], [], id, uri) == Paired(id, uri)
  {}

  lemma PairFirst(utf8: Decoder, f: Field, ids: seq<Bytes>, nested: seq<Bytes>, id: Option<string>, uri: Option<string>)
    ensures f.Delimited? && f.number == 1 ==>
              PairUp(utf8, [f.payload] + ids, nested, id, uri) == PairUp(utf8, ids, nested, utf8(f.payload), uri)
    ensures f.Delimited? && f.number == 2 ==>
              PairUp(utf8, ids, [f.payload] + nested, id, uri)
              == if Workspace(utf8, f.payload, 0).Broken? then None
                 else PairUp(utf8, ids, nested, id, UriOf(Workspace(utf8, f.payload, 0)))
  {
    hide Workspace;
    if f.Delimited? {
      var all := [f.payload] + nested;
      assert all[0] == f.payload && all[1..] == nested;
      assert AnyBroken(utf8, all) <==> Workspace(utf8, f.payload, 0).Broken? || AnyBroken(utf8, nested) by {
        if i :| 0 <= i < |nested| && Workspace(utf8, nested[i], 0).Broken? { assert all[i + 1] == nested[i]; }
        if i :| 0 <= i < |all| && Workspace(utf8, all[i], 0).Broken? {
          if i > 0 { assert nested[i - 1] == all[i]; }
        }
      }
    }
  }

  /** Decoding inverts encoding: a conversation id in field 1 and a workspace URI on the path 2, 9, 1,
      with unknown fields of any kind before, between and after on every level, and in any order. */
  lemma RecordRoundTrip(utf8: Decoder, fs: seq<Field>, workspace: seq<Field>, inner: seq<Field>,
                        id: string, uri: string, idBytes: Bytes, uriBytes: Bytes)
    requires AllWellFormed(fs) && AllWellFormed(workspace) && AllWellFormed(inner)
    requires utf8(idBytes) == Some(id) && utf8(uriBytes) == Some(uri)
    requires Payloads(fs, 1) == [idBytes] && Payloads(fs, 2) == [EncodeAll(workspace)]
    requires Payloads(workspace, 9) == [EncodeAll(inner)] && Payloads(inner, 1) == [uriBytes]
    ensures Record(utf8, EncodeAll(fs), 0, None, None) == Some((id, uri))
  {
    hide EncodeAll, AllWellFormed, Payloads, Workspace, FirstUri, Record;
    RecordReads(utf8, fs, [], None, None);
    WorkspaceReads(utf8, workspace, []);
    FirstUriReads(utf8, inner, []);
    assert [] + EncodeAll(fs) == EncodeAll(fs);
    assert [] + EncodeAll(workspace) == EncodeAll(workspace);
    assert [] + EncodeAll(inner) == EncodeAll(inner);
    assert FirstFound(utf8, [EncodeAll(inner)]) == Present(Some(uri));
  }

  // ---- The whole file ---------------------------------------------------------------------

  /** Each record's own pair, later ones over earlier ones. */
  function PutAll(utf8: Decoder, records: seq<Bytes>, m: map<string, string>): map<string, string> {
    if records == [] then m
    else PutAll(utf8, records[1..], Put(m, Record(utf8, records[0], 0, None, None)))
  }

  /** A well-framed file never fails, whatever its records hold; only field 1 counts. */
  lemma {:induction false} SummariesRead(utf8: Decoder, fs: seq<Field>, before: Bytes, m: map<string, string>)
    requires AllWellFormed(fs)
    ensures Summaries(utf8, before + EncodeAll(fs), |before|, m) == Ok(PutAll(utf8, Payloads(fs, 1), m))
    decreases |fs|
  {
    hide EncodeAll, AllWellFormed, Record, NextField, Payloads;
    NoPayloads(1);
    if fs == [] {
      NoFieldReads(before);
    } else {
      var f := fs[0];
      FirstFieldReads(fs, before);
      PayloadsFirst(fs, 1);
      SkipFirstUri(utf8, before + EncodeAll(fs), |before|, |before| + |f.Encode()|);
      var mine := f.Delimited? && f.number == 1;
      SummariesRead(utf8, fs[1..], before + f.Encode(),
                    if mine then Put(m, Record(utf8, f.payload, 0, None, None)) else m);
      if mine { assert Payloads(fs, 1)[1..] == Payloads(fs[1..], 1); }
    }
  }

  /** Nothing is said of `key` by this record. */
  predicate Silent(utf8: Decoder, record: Bytes, key: string) {
    var r := Record(utf8, record, 0, None, None);
    r.Some? ==> r.value.0 != key
  }

  ghost predicate SameAt(m: map<string, string>, m': map<string, string>, key: string) {
    (key in m <==> key in m') && (key in m && key in m' ==> m[key] == m'[key])
  }

  lemma {:induction false} PutAllSame(utf8: Decoder, records: seq<Bytes>, m: map<string, string>, m': map<string, string>, key: string)
    requires SameAt(m, m', key)
    ensures SameAt(PutAll(utf8, records, m), PutAll(utf8, records, m'), key)
    decreases |records|
  {
    hide Record;
    if records != [] {
      var r := Record(utf8, records[0], 0, None, None);
      PutAllSame(utf8, records[1..], Put(m, r), Put(m', r), key);
    }
  }

  lemma {:induction false} OneReplaced(utf8: Decoder, records: seq<Bytes>, i: nat, other: Bytes, m: map<string, string>,
                                      m': map<string, string>, key: string)
    requires i < |records| && SameAt(m, m', key)
    requires Silent(utf8, records[i], key) && Silent(utf8, other, key)
    ensures SameAt(PutAll(utf8, records, m), PutAll(utf8, records[i := other], m'), key)
    decreases |records|
  {
    hide Record;
    var changed := records[i := other];
    if i == 0 {
      assert changed[1..] == records[1..];
      PutAllSame(utf8, records[1..], Put(m, Record(utf8, records[0], 0, None, None)),
                 Put(m', Record(utf8, other, 0, None, None)), key);
    } else {
      var r := Record(utf8, records[0], 0, None, None);
      assert changed[1..] == records[1..][i - 1 := other] && changed[0] == records[0];
      assert records[1..][i - 1] == records[i];
      OneReplaced(utf8, records[1..], i - 1, other, Put(m, r), Put(m', r), key);
    }
  }

  lemma {:induction false} PayloadsReplaced(fs: seq<Field>, i: nat, other: Bytes) returns (k: nat)
    requires i < |fs| && fs[i].Delimited? && fs[i].number == 1
    ensures k < |Payloads(fs, 1)| && Payloads(fs, 1)[k] == fs[i].payload
    ensures Payloads(fs[i := Delimited(1, other)], 1) == Payloads(fs, 1)[k := other]
    decreases |fs|
  {
    var changed := fs[i := Delimited(1, other)];
    if i == 0 {
      k := 0;
      assert changed[1..] == fs[1..];
    } else {
      var j := PayloadsReplaced(fs[1..], i - 1, other);
      assert changed[1..] == fs[1..][i - 1 := Delimited(1, other)];
      k := if fs[0].Delimited? && fs[0].number == 1 then j + 1 else j;
    }
  }

  /** Replacing the payload of one record by any bytes, correctly framed, leaves the file readable and
      changes only what that record itself says. */
  lemma RecordIsolated(utf8: Decoder, fs: seq<Field>, i: nat, other: Bytes, key: string)
    requires AllWellFormed(fs) && i < |fs| && fs[i].Delimited? && fs[i].number == 1
    requires |other| < Pow128(VARINT_MAX_BYTES)
    requires Silent(utf8, fs[i].payload, key) && Silent(utf8, other, key)
    ensures var a := Summaries(utf8, EncodeAll(fs), 0, map[]);
            var b := Summaries(utf8, EncodeAll(fs[i := Delimited(1, other)]), 0, map[]);
            a.Ok? && b.Ok? && SameAt(a.value, b.value, key)
  {
    hide EncodeAll, Summaries, Record, Pow128;
    var changed := fs[i := Delimited(1, other)];
    assert AllWellFormed(changed);
    SummariesRead(utf8, fs, [], map[]);
    SummariesRead(utf8, changed, [], map[]);
    assert [] + EncodeAll(fs) == EncodeAll(fs) && [] + EncodeAll(changed) == EncodeAll(changed);
    var k := PayloadsReplaced(fs, i, other);
    OneReplaced(utf8, Payloads(fs, 1), k, other, map[], map[], key);
  }

  // ---- Data that ends inside a field ------------------------------------------------------

  /** `cut` is the beginning of `whole`, and not all of it. */
  predicate CutOf(cut: Bytes, whole: Bytes) { |cut| < |whole| && cut == whole[..|cut|] }

  /** A varint cut short runs past the data. */
  lemma {:induction false} VarintCut(v: nat, cut: Bytes, before: Bytes, pos: nat, read: nat)
    requires read < VARINT_MAX_BYTES && |before| == pos + read && v < Pow128(VARINT_MAX_BYTES - read)
    requires CutOf(cut, EncodeVarint(v))
    ensures Varint(before + cut, pos, read) == Err(IndexError)
    decreases v
  {
    hide Varint;
    if cut == [] {
      assert before + cut == before;
      AboveShort(before, pos, read, 0, 1);
      AboveNothing(Varint(before, pos, read));
    } else {
      var b: Byte := v % 128 + 128;
      var rest := cut[1..];
      assert cut[0] == b && rest == EncodeVarint(v / 128)[..|rest|];
      assert before + cut == (before + [b]) + rest;
      VarintByte(before + cut, pos, read);
      PowStep(VARINT_MAX_BYTES - read);
      DivLess(v, Pow128(VARINT_MAX_BYTES - read - 1));
      assert read + 1 < VARINT_MAX_BYTES;
      VarintCut(v / 128, rest, before + [b], pos, read + 1);
    }
  }

  lemma CutTag(f: Field, cut: Bytes, before: Bytes)
    requires f.WellFormed() && cut != [] && CutOf(cut, EncodeVarint(f.number * 8 + f.WireType()))
    ensures NextField(before + cut, |before|) == Fault(IndexError)
  {
    hide Varint, EncodeVarint, Pow128;
    VarintCut(f.number * 8 + f.WireType(), cut, before, |before|, 0);
  }

  /** The data ends in the body, after the whole tag. */
  lemma CutScalar(number: nat, value: nat, body: Bytes, before: Bytes)
    requires Scalar(number, value).WellFormed() && CutOf(body, EncodeVarint(value))
    ensures NextField(before + EncodeVarint(number * 8 + 0) + body, |before|) == Fault(IndexError)
  {
    hide Varint, EncodeVarint, Pow128, NextField;
    var tag := EncodeVarint(number * 8 + 0);
    VarintRoundTrip(number * 8 + 0, before, body);
    VarintCut(value, body, before + tag, |before| + |tag|, 0);
    CutSize(before + tag + body, |before|, number, 0, |before| + |tag|);
  }

  lemma CutFixed(number: nat, wireType: nat, body: Bytes, before: Bytes)
    requires number * 8 + wireType < Pow128(VARINT_MAX_BYTES)
    requires (wireType == 1 && |body| < 8) || (wireType == 5 && |body| < 4)
    ensures NextField(before + EncodeVarint(number * 8 + wireType) + body, |before|) == NoMore
  {
    hide Varint, EncodeVarint, Pow128;
    VarintRoundTrip(number * 8 + wireType, before, body);
    var p := |before| + |EncodeVarint(number * 8 + wireType)|;
    AfterTag(before + EncodeVarint(number * 8 + wireType) + body, |before|, number, wireType, p);
  }

  lemma CutDelimited(number: nat, payload: Bytes, body: Bytes, before: Bytes)
    requires Delimited(number, payload).WellFormed() && CutOf(body, EncodeVarint(|payload|) + payload)
    ensures NextField(before + EncodeVarint(number * 8 + 2) + body, |before|) == Fault(IndexError)
  {
    hide Varint, EncodeVarint, Pow128, NextField;
    var tag, size := EncodeVarint(number * 8 + 2), EncodeVarint(|payload|);
    var data, p := before + tag + body, |before| + |tag|;
    VarintRoundTrip(number * 8 + 2, before, body);
    if |body| < |size| {
      assert body == size[..|body|];
      VarintCut(|payload|, body, before + tag, p, 0);
      CutSize(data, |before|, number, 2, p);
    } else {
      var rest := body[|size|..];
      assert body == size + rest;
      assert data == (before + tag) + size + rest;
      VarintRoundTrip(|payload|, before + tag, rest);
      AfterTag(data, |before|, number, 2, p);
    }
  }

  lemma CutSize(data: Bytes, pos: nat, number: nat, wireType: nat, p: nat)
    requires pos < |data| && (wireType == 0 || wireType == 2)
    requires Varint(data, pos, 0) == Ok((number * 8 + wireType, p)) && Varint(data, p, 0) == Err(IndexError)
    ensures NextField(data, pos) == Fault(IndexError)
  {
    hide Varint;
    assert (number * 8 + wireType) % 8 == wireType;
  }

  lemma CutBody(f: Field, body: Bytes, before: Bytes)
    requires f.WellFormed() && CutOf(body, f.Body())
    ensures NextField(before + EncodeVarint(f.number * 8 + f.WireType()) + body, |before|)
            == if f.Fixed64? || f.Fixed32? then NoMore else Fault(IndexError)
  {
    hide Varint, EncodeVarint, Pow128, NextField;
    match f
    case Scalar(number, value) => CutScalar(number, value, body, before);
    case Delimited(number, payload) => CutDelimited(number, payload, body, before);
    case Fixed64(number, bytes) => CutFixed(number, 1, body, before);
    case Fixed32(number, bytes) => CutFixed(number, 5, body, before);
  }

  /** How the iterator over `data` ends: quietly, or by raising. */
  function Ending(data: Bytes, pos: nat): Option<Error>
    decreases |data| - pos
  {
    match NextField(data, pos)
    case NoMore => None
    case Fault(e) => Some(e)
    case Got(_, _, next) => Ending(data, next)
  }

  lemma SameEnding(data: Bytes, pos: nat, next: nat)
    requires NextField(data, pos) == NextField(data, next)
    ensures Ending(data, pos) == Ending(data, next)
  {}

  lemma GotEnding(data: Bytes, pos: nat)
    ensures var s := NextField(data, pos); s.Got? ==> Ending(data, pos) == Ending(data, s.next)
  {}

  lemma CutFieldReads(f: Field, cut: Bytes, before: Bytes)
    requires f.WellFormed() && cut != [] && CutOf(cut, f.Encode())
    ensures var tag := EncodeVarint(f.number * 8 + f.WireType());
            NextField(before + cut, |before|)
            == if (f.Fixed64? || f.Fixed32?) && |cut| >= |tag| then NoMore else Fault(IndexError)
  {
    hide NextField, EncodeVarint, Pow128;
    var tag := EncodeVarint(f.number * 8 + f.WireType());
    if |cut| < |tag| {
      assert cut == tag[..|cut|];
      CutTag(f, cut, before);
    } else {
      var body := cut[|tag|..];
      assert cut == tag + body && body == f.Body()[..|body|];
      ConcatAssoc(before, tag, body);
      CutBody(f, body, before);
    }
  }

  /** Data that ends inside a field, after any whole ones, makes the iterator raise exactly when the field
      is not fixed-width or not even its tag is complete: the skip over a fixed-width body runs past the
      end and nothing looks back. */
  lemma {:induction false} CutRaisesIff(fs: seq<Field>, f: Field, cut: Bytes, before: Bytes)
    requires AllWellFormed(fs) && f.WellFormed() && cut != [] && CutOf(cut, f.Encode())
    ensures var ending := Ending(before + (EncodeAll(fs) + cut), |before|);
            && (ending.Some? <==> !(f.Fixed64? || f.Fixed32?) || |cut| < |EncodeVarint(f.number * 8 + f.WireType())|)
            && (ending.Some? ==> ending == Some(IndexError))
    decreases |fs|
  {
    hide NextField, EncodeVarint, Pow128, CutOf;
    var data := before + (EncodeAll(fs) + cut);
    if fs == [] {
      assert EncodeAll(fs) + cut == cut;
      CutFieldReads(f, cut, before);
    } else {
      var first, rest := fs[0].Encode(), EncodeAll(fs[1..]) + cut;
      assert data == before + first + rest && data == (before + first) + rest;
      FieldReads(fs[0], before, rest);
      var next := |before + first|;
      GotEnding(data, |before|);
      if !fs[0].Delimited? { SameEnding(data, |before|, next); }
      CutRaisesIff(fs[1..], f, cut, before + first);
    }
  }

  /** Three of the nine bytes of a fixed-width field, and nothing is raised. */
  lemma CutUnnoticed()
    ensures CutOf([9, 1, 2], Fixed64(1, [1, 2, 3, 4, 5, 6, 7, 8]).Encode()) && Ending([9, 1, 2], 0).None?
  {
    hide Ending;
    var f, cut := Fixed64(1, [1, 2, 3, 4, 5, 6, 7, 8]), [9, 1, 2];
    assert EncodeVarint(9) == [9];
    assert f.Encode() == [9] + f.bytes;
    PowStep(VARINT_MAX_BYTES);
    PowPositive(VARINT_MAX_BYTES - 1);
    assert [] + (EncodeAll([]) + cut) == cut;
    CutRaisesIff([], f, cut, []);
  }

  // ---- What else is refused, and what a file says ----------------------------------------------

  /** A group, or a wire type there is none of, is refused wherever it stands. */
  lemma UnknownRaises(number: nat, wireType: nat, before: Bytes, after: Bytes)
    requires wireType in {3, 4, 6, 7} && number * 8 + wireType < Pow128(VARINT_MAX_BYTES)
    ensures NextField(before + EncodeVarint(number * 8 + wireType) + after, |before|) == Fault(ValueError)
  {
    hide Varint, EncodeVarint, Pow128;
    VarintRoundTrip(number * 8 + wireType, before, after);
  }

  /** What a list of records says of a key: what the last of those that name it says, or nothing when none does. */
  lemma {:induction false} PutAllIs(utf8: Decoder, records: seq<Bytes>, m: map<string, string>, key: string)
    ensures var all := PutAll(utf8, records, m);
            if exists i :: 0 <= i < |records| && Names(utf8, records[i], key) then
              key in all && exists i :: 0 <= i < |records| && Record(utf8, records[i], 0, None, None) == Some((key, all[key]))
                                        && forall j | i < j < |records| :: !Names(utf8, records[j], key)
            else (key in all <==> key in m) && (key in all ==> all[key] == m[key])
    decreases |records|
  {
    hide Record;
    if records != [] {
      var r := Record(utf8, records[0], 0, None, None);
      var m', rest := Put(m, r), records[1..];
      PutAllIs(utf8, rest, m', key);
      assert forall j | 0 <= j < |rest| :: rest[j] == records[j + 1];
      if i :| 0 <= i < |rest| && Names(utf8, rest[i], key) {
        assert Names(utf8, records[i + 1], key);
        var all := PutAll(utf8, rest, m');
        var k :| 0 <= k < |rest| && Record(utf8, rest[k], 0, None, None) == Some((key, all[key]))
                 && forall j | k < j < |rest| :: !Names(utf8, rest[j], key);
        forall j | k + 1 < j < |records| ensures !Names(utf8, records[j], key) { assert records[j] == rest[j - 1]; }
        assert Record(utf8, records[k + 1], 0, None, None) == Some((key, all[key]));
      } else {
        forall j | 0 < j < |records| ensures !Names(utf8, records[j], key) { assert records[j] == rest[j - 1]; }
        if Names(utf8, records[0], key) { assert Record(utf8, records[0], 0, None, None) == Some((key, m'[key])); }
      }
    }
  }

  /** The record decodes to a pair with this id. */
  predicate Names(utf8: Decoder, record: Bytes, key: string) {
    var r := Record(utf8, record, 0, None, None);
    r.Some? && r.value.0 == key
  }
}

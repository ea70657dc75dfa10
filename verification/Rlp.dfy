/** The RLP converter: nested byte strings, their encoding, and the decoder. The header coder is
    the one of Appendix B of the Ethereum Yellow Paper, with every non-canonical form refused. */
module Rlp {
  import opened Common

  type Byte = n: int | 0 <= n < 256
  type Bytes = seq<Byte>

  datatype Item = Data(bytes: Bytes) | Array(items: seq<Item>)

  datatype Header = Header(list: bool, length: nat)

  datatype RlpError = InputTooShort | NonCanonicalSingleByte | NonCanonicalSize | LeadingZero

  /** Lengths are 64-bit. */
  const LENGTH_LIMIT: nat := U64

  // ---- Big-endian lengths ----------------------------------------------------------------

  function BigEndian(n: nat): Bytes {
    if n == 0 then [] else BigEndian(n / 256) + [n % 256]
  }

  function FromBigEndian(bytes: Bytes): nat {
    if bytes == [] then 0 else FromBigEndian(DropLast(bytes)) * 256 + Last(bytes)
  }

  lemma {:induction false} BigEndianRoundTrip(n: nat)
    ensures FromBigEndian(BigEndian(n)) == n
    ensures n > 0 ==> BigEndian(n) != [] && BigEndian(n)[0] != 0
  {
    if n > 0 {
      BigEndianRoundTrip(n / 256);
      assert DropLast(BigEndian(n)) == BigEndian(n / 256);
    }
  }

  lemma {:induction false} FromBigEndianRoundTrip(bytes: Bytes)
    requires bytes != [] ==> bytes[0] != 0
    ensures BigEndian(FromBigEndian(bytes)) == bytes
    ensures bytes != [] ==> FromBigEndian(bytes) > 0
  {
    if bytes != [] {
      FromBigEndianRoundTrip(DropLast(bytes));
      assert bytes == DropLast(bytes) + [Last(bytes)];
    }
  }

  function Power256(k: nat): (p: nat)
    ensures p > 0
  {
    if k == 0 then 1 else 256 * Power256(k - 1)
  }

  lemma Power256Of8()
    ensures Power256(8) == LENGTH_LIMIT
  {
    assert Power256(4) == 256 * 256 * 256 * 256;
    assert Power256(8) == 256 * 256 * 256 * 256 * Power256(4);
  }

  lemma {:induction false} BigEndianSize(n: nat, k: nat)
    ensures |BigEndian(n)| <= k <==> n < Power256(k)
  {
    if n > 0 && k > 0 {
      BigEndianSize(n / 256, k - 1);
    }
  }

  // ---- Encoding --------------------------------------------------------------------------

  predicate IsSmallByte(data: Bytes) {
    |data| == 1 && data[0] < 0x80
  }

  function HeaderLength(length: nat): nat {
    if length < 56 then 1 else 1 + |BigEndian(length)|
  }

  /** The size of an item's encoding, which the encoder needs before it writes a list's header. */
  function EncodedLength(item: Item): nat
    decreases item
  {
    match item
    case Data(data) => if IsSmallByte(data) then 1 else HeaderLength(|data|) + |data|
    case Array(items) => HeaderLength(PayloadLength(items)) + PayloadLength(items)
  }

  function PayloadLength(items: seq<Item>): nat
    decreases items
  {
    if items == [] then 0 else EncodedLength(items[0]) + PayloadLength(items[1..])
  }

  /** Every length in the item's encoding is a 64-bit number. */
  predicate Fits(item: Item)
    decreases item
  {
    match item
    case Data(data) => |data| < LENGTH_LIMIT
    case Array(items) => PayloadLength(items) < LENGTH_LIMIT && AllFit(items)
  }

  predicate AllFit(items: seq<Item>)
    decreases items
  {
    items == [] || (Fits(items[0]) && AllFit(items[1..]))
  }

  function EncodeHeader(header: Header): (bytes: Bytes)
    requires header.length < LENGTH_LIMIT
    ensures |bytes| == HeaderLength(header.length)
  {
    var code := if header.list then 0xC0 else 0x80;
    if header.length < 56 then [code + header.length]
    else
      Power256Of8();
      BigEndianSize(header.length, 8);
      [code + 55 + |BigEndian(header.length)|] + BigEndian(header.length)
  }

  function Encode(item: Item): (bytes: Bytes)
    requires Fits(item)
    ensures |bytes| == EncodedLength(item)
    decreases item
  {
    match item
    case Data(data) => if IsSmallByte(data) then data else EncodeHeader(Header(false, |data|)) + data
    case Array(items) => EncodeHeader(Header(true, PayloadLength(items))) + EncodeAll(items)
  }

  function EncodeAll(items: seq<Item>): (bytes: Bytes)
    requires AllFit(items)
    ensures |bytes| == PayloadLength(items)
    decreases items
  {
    if items == [] then [] else Encode(items[0]) + EncodeAll(items[1..])
  }

  // ---- Decoding --------------------------------------------------------------------------

  datatype Headed = Headed(header: Header, rest: Bytes)

  /** The header at the front of the buffer, and the buffer past it. A byte below 0x80 is its own
      one-byte payload and is left in place. */
  function DecodeHeader(buf: Bytes): (r: Result<Headed, RlpError>)
    ensures r.Ok? ==> r.value.header.length <= |r.value.rest| <= |buf|
    ensures r.Ok? ==> if r.value.rest == buf then r.value.header == Header(false, 1) else |r.value.rest| < |buf|
  {
    if buf == [] then Err(InputTooShort)
    else
      var b := buf[0];
      if b < 0x80 then Ok(Headed(Header(false, 1), buf))
      else if b < 0xB8 then
        var rest := buf[1..];
        if b == 0x81 && rest == [] then Err(InputTooShort)
        else if b == 0x81 && rest[0] < 0x80 then Err(NonCanonicalSingleByte)
        else Sized(Header(false, b - 0x80), rest)
      else if b < 0xC0 then DecodeLongHeader(false, b - 0xB7, buf[1..])
      else if b < 0xF8 then Sized(Header(true, b - 0xC0), buf[1..])
      else DecodeLongHeader(true, b - 0xF7, buf[1..])
  }

  function DecodeLongHeader(list: bool, lengthOfLength: nat, buf: Bytes): (r: Result<Headed, RlpError>)
    requires lengthOfLength > 0
    ensures r.Ok? ==> r.value.header.length <= |r.value.rest| <= |buf|
  {
    if |buf| < lengthOfLength then Err(InputTooShort)
    else if buf[0] == 0 then Err(LeadingZero)
    else
      var length := FromBigEndian(buf[..lengthOfLength]);
      if length < 56 then Err(NonCanonicalSize) else Sized(Header(list, length), buf[lengthOfLength..])
  }

  function Sized(header: Header, rest: Bytes): (r: Result<Headed, RlpError>)
    ensures r.Ok? ==> r.value == Headed(header, rest) && header.length <= |rest|
  {
    if |rest| < header.length then Err(InputTooShort) else Ok(Headed(header, rest))
  }

  datatype Decoded = Decoded(item: Item, rest: Bytes)

  /** The item at the front of the buffer, and the buffer past it. */
  function Decode(buf: Bytes): (r: Result<Decoded, RlpError>)
    ensures r.Ok? ==> |r.value.rest| < |buf|
    decreases |buf|, 0
  {
    match DecodeHeader(buf)
    case Err(e) => Err(e)
    case Ok(Headed(h, rest)) =>
      var payload, after := rest[..h.length], rest[h.length..];
      if !h.list then
        ZeroLengthHeader(buf);
        Ok(Decoded(Data(payload), after))
      else
        match DecodeAll(payload)
        case Err(e) => Err(e)
        case Ok(items) => Ok(Decoded(Array(items), after))
  }

  lemma ZeroLengthHeader(buf: Bytes)
    ensures var r := DecodeHeader(buf);
            r.Ok? ==> |r.value.rest| - r.value.header.length < |buf|
  {
  }

  /** Items until the view is used up. */
  function DecodeAll(view: Bytes): (r: Result<seq<Item>, RlpError>)
    decreases |view|, 1
  {
    if view == [] then Ok([])
    else
      match Decode(view)
      case Err(e) => Err(e)
      case Ok(Decoded(item, rest)) =>
        match DecodeAll(rest)
        case Err(e) => Err(e)
        case Ok(items) => Ok([item] + items)
  }

  /** A byte buffer that reading moves along. */
  class Buffer {
    var bytes: Bytes

    constructor (bytes: Bytes)
      ensures this.bytes == bytes
    {
      this.bytes := bytes;
    }

    method Advance(n: nat)
      requires n <= |bytes|
      modifies this
      ensures bytes == old(bytes)[n..]
    {
      bytes := bytes[n..];
    }

    /** The decoder as it runs: it reads a header, loops over a list's payload, pushing items, and
        moves the buffer past the payload. */
    method DecodeItem() returns (r: Result<Item, RlpError>)
      modifies this
      ensures match Decode(old(bytes))
              case Err(e) => r == Err(e)
              case Ok(Decoded(item, rest)) => r == Ok(item) && bytes == rest
      decreases |bytes|
    {
      ghost var start := bytes;
      var header := DecodeHeader(bytes);
      if header.Err? {
        return Err(header.error);
      }
      var h := header.value.header;
      bytes := header.value.rest;
      var d := bytes[..h.length];
      if h.list {
        var view := new Buffer(d);
        var items := [];
        assert DecodeAll(d).Ok? ==> items + DecodeAll(d).value == DecodeAll(d).value;
        while view.bytes != []
          invariant fresh(view) && |view.bytes| <= |d| && bytes == header.value.rest
          invariant DecodeAll(d) == match DecodeAll(view.bytes)
                                    case Err(e) => Err(e)
                                    case Ok(more) => Ok(items + more)
          decreases |view.bytes|
        {
          ghost var before := view.bytes;
          var next := view.DecodeItem();
          if next.Err? {
            return Err(next.error);
          }
          Prepend(items, next.value, DecodeAll(view.bytes));
          items := items + [next.value];
        }
        assert items + [] == items;
        r := Ok(Array(items));
      } else {
        r := Ok(Data(d));
      }
      Advance(h.length);
    }

    static lemma Prepend(items: seq<Item>, item: Item, more: Result<seq<Item>, RlpError>)
      ensures more.Ok? ==> items + ([item] + more.value) == (items + [item]) + more.value
    {
    }
  }

  // ---- Decoding undoes encoding ----------------------------------------------------------

  lemma HeaderRoundTrip(header: Header, payload: Bytes)
    requires header.length < LENGTH_LIMIT && header.length <= |payload|
    requires !header.list && header.length == 1 ==> payload[0] >= 0x80
    ensures DecodeHeader(EncodeHeader(header) + payload) == Ok(Headed(header, payload))
  {
    if header.length < 56 {
      assert (EncodeHeader(header) + payload)[1..] == payload;
    } else {
      LongHeaderRoundTrip(header, payload);
    }
  }

  lemma LongHeaderRoundTrip(header: Header, payload: Bytes)
    requires 56 <= header.length < LENGTH_LIMIT && header.length <= |payload|
    ensures DecodeHeader(EncodeHeader(header) + payload) == Ok(Headed(header, payload))
  {
    var bytes, be := EncodeHeader(header) + payload, BigEndian(header.length);
    assert be != [] && be[0] != 0 && FromBigEndian(be) == header.length && |be| <= 8 by {
      Power256Of8();
      BigEndianSize(header.length, 8);
      BigEndianRoundTrip(header.length);
    }
    assert bytes[0] == (if header.list then 0xF7 else 0xB7) + |be| && bytes[1..] == be + payload;
    LongHeader(header, be, payload);
  }

  lemma LongHeader(header: Header, be: Bytes, payload: Bytes)
    requires be != [] && be[0] != 0 && FromBigEndian(be) == header.length
    requires 56 <= header.length <= |payload|
    ensures DecodeLongHeader(header.list, |be|, be + payload) == Ok(Headed(header, payload))
  {
    assert (be + payload)[..|be|] == be && (be + payload)[|be|..] == payload;
  }

  /** Whatever follows it, an encoded item decodes to itself and leaves exactly what follows. */
  lemma {:induction false} DecodeEncode(item: Item, rest: Bytes)
    requires Fits(item)
    ensures Decode(Encode(item) + rest) == Ok(Decoded(item, rest))
    decreases item
  {
    match item
    case Data(data) =>
      assert (data + rest)[..|data|] == data && (data + rest)[|data|..] == rest;
      if !IsSmallByte(data) {
        var header := EncodeHeader(Header(false, |data|));
        assert Encode(item) + rest == header + (data + rest) by {
          Associative(header, data, rest);
        }
        HeaderRoundTrip(Header(false, |data|), data + rest);
      }
    case Array(items) =>
      var payload, header := EncodeAll(items), Header(true, PayloadLength(items));
      assert DecodeHeader(Encode(item) + rest) == Ok(Headed(header, payload + rest)) by {
        Associative(EncodeHeader(header), payload, rest);
        HeaderRoundTrip(header, payload + rest);
      }
      assert (payload + rest)[..|payload|] == payload && (payload + rest)[|payload|..] == rest;
      DecodeAllEncodeAll(items);
  }

  lemma {:induction false} DecodeAllEncodeAll(items: seq<Item>)
    requires AllFit(items)
    ensures DecodeAll(EncodeAll(items)) == Ok(items)
    decreases items
  {
    if items != [] {
      DecodeEncode(items[0], EncodeAll(items[1..]));
      DecodeAllEncodeAll(items[1..]);
      assert items == [items[0]] + items[1..];
    }
  }

  // ---- Encoding undoes decoding ----------------------------------------------------------

  lemma SplitAt(bytes: Bytes, n: nat)
    requires n <= |bytes|
    ensures bytes == bytes[..n] + bytes[n..]
  {
  }

  lemma LongHeaderCanonical(list: bool, n: nat, buf: Bytes)
    requires 0 < n <= 8 && DecodeLongHeader(list, n, buf).Ok? && |buf| < LENGTH_LIMIT
    ensures var Headed(h, rest) := DecodeLongHeader(list, n, buf).value;
            && 56 <= h.length < LENGTH_LIMIT && h.list == list
            && |BigEndian(h.length)| == n && buf == BigEndian(h.length) + rest
  {
    FromBigEndianRoundTrip(buf[..n]);
    SplitAt(buf, n);
  }

  lemma HeaderCanonical(buf: Bytes)
    requires DecodeHeader(buf).Ok? && buf[0] >= 0x80 && |buf| < LENGTH_LIMIT
    ensures var Headed(h, rest) := DecodeHeader(buf).value;
            h.length < LENGTH_LIMIT && buf == EncodeHeader(h) + rest
  {
    var b, tail := buf[0], buf[1..];
    SplitAt(buf, 1);
    assert buf[..1] == [b];
    if 0xB8 <= b < 0xC0 || 0xF8 <= b {
      var list := b >= 0xF8;
      LongHeaderCanonical(list, if list then b - 0xF7 else b - 0xB7, tail);
      var Headed(h, rest) := DecodeHeader(buf).value;
      Associative([b], BigEndian(h.length), rest);
    }
  }

  /** When decoding succeeds, the bytes consumed are the encoding of the item: the encoding is the
      only one the decoder accepts, and the children of a list exactly tile its payload. */
  lemma {:induction false} EncodeDecode(buf: Bytes)
    requires |buf| < LENGTH_LIMIT && Decode(buf).Ok?
    ensures var Decoded(item, rest) := Decode(buf).value;
            Fits(item) && buf == Encode(item) + rest
    decreases |buf|, 0
  {
    var Headed(h, rest) := DecodeHeader(buf).value;
    var payload, after := rest[..h.length], rest[h.length..];
    SplitAt(rest, h.length);
    if buf[0] >= 0x80 {
      HeaderCanonical(buf);
      Associative(EncodeHeader(h), payload, after);
      if h.list {
        EncodeAllDecodeAll(payload);
      } else {
        NotSmall(buf);
      }
    }
  }

  lemma NotSmall(buf: Bytes)
    requires DecodeHeader(buf).Ok? && buf[0] >= 0x80
    ensures var Headed(h, rest) := DecodeHeader(buf).value;
            !h.list ==> !IsSmallByte(rest[..h.length])
  {
  }

  lemma {:induction false} EncodeAllDecodeAll(view: Bytes)
    requires |view| < LENGTH_LIMIT && DecodeAll(view).Ok?
    ensures AllFit(DecodeAll(view).value) && view == EncodeAll(DecodeAll(view).value)
    decreases |view|, 1
  {
    if view != [] {
      var Decoded(item, rest) := Decode(view).value;
      EncodeDecode(view);
      EncodeAllDecodeAll(rest);
      var items := DecodeAll(view).value;
      assert items[0] == item && items[1..] == DecodeAll(rest).value;
    }
  }

  /** The decoder accepts a byte string, with a given item and remainder, exactly when the string
      is that item's encoding followed by that remainder. */
  lemma {:induction false} DecodesIffEncoded(buf: Bytes, item: Item, rest: Bytes)
    requires |buf| < LENGTH_LIMIT
    ensures Decode(buf) == Ok(Decoded(item, rest)) <==> Fits(item) && buf == Encode(item) + rest
  {
    if Decode(buf).Ok? {
      EncodeDecode(buf);
    }
    if Fits(item) && buf == Encode(item) + rest {
      DecodeEncode(item, rest);
    }
  }

  /** No encoding is a prefix of another item's encoding. */
  lemma PrefixFree(a: Item, b: Item, restA: Bytes, restB: Bytes)
    requires Fits(a) && Fits(b) && Encode(a) + restA == Encode(b) + restB
    ensures a == b && restA == restB
  {
    DecodeEncode(a, restA);
    DecodeEncode(b, restB);
  }

  // ---- The format itself -----------------------------------------------------------------

  /** Appendix B of the Yellow Paper: a byte below 128 stands for itself; up to 55 bytes follow one byte
      that tells their number; more follow their number in big-endian bytes, as few as it takes, and one
      byte that tells how many those are. Lists have codes of their own. */
  lemma Format(item: Item)
    requires Fits(item)
    ensures var payload := if item.Data? then item.bytes else EncodeAll(item.items);
            var short, long := if item.Data? then 0x80 else 0xC0, if item.Data? then 0xB7 else 0xF7;
            if item.Data? && |payload| == 1 && payload[0] < 0x80 then Encode(item) == payload
            else if |payload| <= 55 then Encode(item) == [short + |payload|] + payload
            else exists be :: IsBigEndian(be, |payload|) && |be| <= 8 && Encode(item) == [long + |be|] + be + payload
  {
    var payload := if item.Data? then item.bytes else EncodeAll(item.items);
    if |payload| > 55 {
      BigEndianRoundTrip(|payload|);
      Power256Of8();
      BigEndianSize(|payload|, 8);
      assert IsBigEndian(BigEndian(|payload|), |payload|);
    }
  }

  ghost predicate IsBigEndian(be: Bytes, n: nat) {
    be != [] && be[0] != 0 && FromBigEndian(be) == n
  }

  /** A payload is the encodings of the items one after the other. */
  lemma PayloadIs(items: seq<Item>)
    requires AllFit(items)
    ensures items == [] ==> EncodeAll(items) == []
    ensures items != [] ==> EncodeAll(items) == Encode(items[0]) + EncodeAll(items[1..])
  {
  }

  /** "dog", and "dog" in a list. */
  lemma Dog()
    ensures var dog := Data([0x64, 0x6f, 0x67]);
            && Fits(dog) && Encode(dog) == [0x83, 0x64, 0x6f, 0x67]
            && Fits(Array([dog])) && Encode(Array([dog])) == [0xc4, 0x83, 0x64, 0x6f, 0x67]
  {
    var dog := Data([0x64, 0x6f, 0x67]);
    Singleton(dog);
  }

  /** The empty list, the list of the empty string, and the string itself. */
  lemma Empties()
    ensures Fits(Data([])) && Encode(Data([])) == [0x80]
    ensures Fits(Array([])) && Encode(Array([])) == [0xc0]
    ensures Fits(Array([Data([])])) && Encode(Array([Data([])])) == [0xc1, 0x80]
  {
    Singleton(Data([]));
  }

  lemma Singleton(item: Item)
    requires Fits(item) && EncodedLength(item) < 56
    ensures Fits(Array([item])) && Encode(Array([item])) == [0xc0 + EncodedLength(item)] + Encode(item)
  {
    var items := [item];
    assert items[1..] == [] && PayloadLength(items) == EncodedLength(item);
    assert EncodeAll(items) == Encode(item) + [] == Encode(item);
  }

  /** An encoding that is cut short is too short, wherever it is cut. */
  lemma TruncatedIsTooShort(item: Item, n: nat)
    requires Fits(item) && n < |Encode(item)|
    ensures Decode(Encode(item)[..n]) == Err(InputTooShort)
  {
    var payload := if item.Data? then item.bytes else EncodeAll(item.items);
    if n > 0 {
      var header := EncodeHeader(Header(item.Array?, |payload|));
      assert Encode(item) == header + payload;
      TruncatedHeader(Header(item.Array?, |payload|), payload, n);
    }
  }

  lemma TruncatedHeader(header: Header, payload: Bytes, n: nat)
    requires header.length == |payload| < LENGTH_LIMIT && 0 < n < |EncodeHeader(header) + payload|
    ensures DecodeHeader((EncodeHeader(header) + payload)[..n]) == Err(InputTooShort)
  {
    if header.length < 56 {
      var buf := (EncodeHeader(header) + payload)[..n];
      assert buf[0] == (if header.list then 0xC0 else 0x80) + header.length && |buf[1..]| < header.length;
    } else {
      var be := BigEndian(header.length);
      assert be != [] && be[0] != 0 && FromBigEndian(be) == header.length && |be| <= 8 by {
        BigEndianRoundTrip(header.length);
        Power256Of8();
        BigEndianSize(header.length, 8);
      }
      var code := (if header.list then 0xF7 else 0xB7) + |be|;
      assert EncodeHeader(header) == [code] + be;
      TruncatedLong(header, code, be, payload, n);
    }
  }

  lemma TruncatedLong(header: Header, code: Byte, be: Bytes, payload: Bytes, n: nat)
    requires be != [] && be[0] != 0 && FromBigEndian(be) == header.length && |be| <= 8
    requires 56 <= header.length == |payload| && code == (if header.list then 0xF7 else 0xB7) + |be|
    requires 0 < n < |[code] + be + payload|
    ensures DecodeHeader(([code] + be + payload)[..n]) == Err(InputTooShort)
  {
    var buf := ([code] + be + payload)[..n];
    assert buf[0] == code && buf[1..] == (be + payload)[..n - 1] by {
      Associative([code], be, payload);
    }
    assert DecodeLongHeader(header.list, |be|, buf[1..]) == Err(InputTooShort) by {
      TruncatedLength(header, be, payload, buf[1..]);
    }
  }

  lemma TruncatedLength(header: Header, be: Bytes, payload: Bytes, rest: Bytes)
    requires be != [] && be[0] != 0 && FromBigEndian(be) == header.length && 56 <= header.length == |payload|
    requires |rest| < |be + payload| && rest == (be + payload)[..|rest|]
    ensures DecodeLongHeader(header.list, |be|, rest) == Err(InputTooShort)
  {
    if |rest| >= |be| {
      assert rest[..|be|] == be;
    }
  }

  /** The forms that are refused: a byte that could stand for itself, a length with a leading zero, and a
      length that one byte could tell. */
  lemma RefusedForms(b: Byte, rest: Bytes, list: bool, be: Bytes)
    requires b < 0x80 && 0 < |be| <= 8
    ensures Decode([0x81, b] + rest) == Err(NonCanonicalSingleByte)
    ensures be[0] == 0 ==> Decode([(if list then 0xF7 else 0xB7) + |be|] + be + rest) == Err(LeadingZero)
    ensures be[0] != 0 && FromBigEndian(be) < 56 ==>
      Decode([(if list then 0xF7 else 0xB7) + |be|] + be + rest) == Err(NonCanonicalSize)
  {
    assert ([0x81, b] + rest)[1..] == [b] + rest;
    var code := (if list then 0xF7 else 0xB7) + |be|;
    assert ([code] + be + rest)[1..] == be + rest && (be + rest)[..|be|] == be;
  }
}

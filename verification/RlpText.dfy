/** RLP items as text: `cast from-rlp` prints an item as JSON arrays of hex strings, `cast to-rlp`
    reads such a text back and encodes it. */
module RlpText {
  import opened Common
  import opened Rlp

  // ---- Hex -------------------------------------------------------------------------------

  function HexEncode(bytes: Bytes): string {
    if bytes == [] then "" else [DigitChar(bytes[0] / 16), DigitChar(bytes[0] % 16)] + HexEncode(bytes[1..])
  }

  function HexPairs(s: string): Option<Bytes> {
    if s == "" then Some([])
    else if |s| == 1 then None
    else
      var hi, lo, tail := DigitValue(s[0], 16), DigitValue(s[1], 16), HexPairs(s[2..]);
      if hi.None? || lo.None? || tail.None? then None else Some([hi.value * 16 + lo.value] + tail.value)
  }

  /** Hex text with or without the 0x prefix, in either case. */
  function HexDecode(s: string): Option<Bytes> {
    if |s| >= 2 && s[..2] == "0x" then HexPairs(s[2..]) else HexPairs(s)
  }

  lemma HexPair(hi: nat, lo: nat, tail: string)
    requires hi < 16 && lo < 16
    ensures HexPairs([DigitChar(hi), DigitChar(lo)] + tail) ==
            if HexPairs(tail).None? then None else Some([hi * 16 + lo] + HexPairs(tail).value)
  {
    DigitRoundTrip(hi, 16);
    DigitRoundTrip(lo, 16);
    assert ([DigitChar(hi), DigitChar(lo)] + tail)[2..] == tail;
  }

  lemma {:induction false} HexRoundTrip(bytes: Bytes)
    ensures HexPairs(HexEncode(bytes)) == Some(bytes)
  {
    if bytes != [] {
      HexRoundTrip(bytes[1..]);
      HexPair(bytes[0] / 16, bytes[0] % 16, HexEncode(bytes[1..]));
      assert bytes == [bytes[0]] + bytes[1..];
    }
  }

  lemma {:induction false} HexDigitsOnly(bytes: Bytes)
    ensures forall c :: c in HexEncode(bytes) ==> DigitValue(c, 16).Some?
  {
    if bytes != [] {
      HexDigitsOnly(bytes[1..]);
    }
  }

  lemma HexDecodeEncode(bytes: Bytes)
    ensures HexDecode("0x" + HexEncode(bytes)) == Some(bytes)
    ensures HexDecode(HexEncode(bytes)) == Some(bytes)
  {
    HexRoundTrip(bytes);
    HexDigitsOnly(bytes);
    var hex := HexEncode(bytes);
    assert ("0x" + hex)[2..] == hex;
    assert |hex| >= 2 ==> hex[1] in hex && hex[..2][1] == hex[1];
  }

  // ---- JSON values -----------------------------------------------------------------------

  /** A JSON value. A number is its value when it prints as plain digits. */
  datatype Value =
    | Null | Bool(flag: bool) | Number(n: Option<nat>) | Text(s: string) | List(values: seq<Value>) | Members

  datatype ConvertError = Boolean | NotANumber | NotHex | AnObject | TooLong | NotRlp(error: RlpError)

  function ValueToItem(value: Value): Result<Item, ConvertError>
    decreases value
  {
    match value
    case Null => Ok(Data([]))
    case Bool(_) => Err(Boolean)
    case Number(n) => if n.None? || n.value >= U256 then Err(NotANumber) else Ok(Data(BigEndian(n.value)))
    case Text(s) =>
      var bytes := HexDecode(s);
      if bytes.None? then Err(NotHex) else Ok(Data(bytes.value))
    case List(values) =>
      var items := ValuesToItems(values);
      if items.Err? then Err(items.error) else Ok(Array(items.value))
    case Members => Err(AnObject)
  }

  function ValuesToItems(values: seq<Value>): Result<seq<Item>, ConvertError>
    decreases values
  {
    if values == [] then Ok([])
    else
      match ValueToItem(values[0])
      case Err(e) => Err(e)
      case Ok(item) =>
        match ValuesToItems(values[1..])
        case Err(e) => Err(e)
        case Ok(items) => Ok([item] + items)
  }

  /** The value an item prints as. */
  function ValueOf(item: Item): Value
    decreases item
  {
    match item
    case Data(data) => Text("0x" + HexEncode(data))
    case Array(items) => List(ValuesOf(items))
  }

  function ValuesOf(items: seq<Item>): seq<Value>
    decreases items
  {
    if items == [] then [] else [ValueOf(items[0])] + ValuesOf(items[1..])
  }

  lemma {:induction false} ValueRoundTrip(item: Item)
    ensures ValueToItem(ValueOf(item)) == Ok(item)
    decreases item
  {
    match item
    case Data(data) => HexDecodeEncode(data);
    case Array(items) => ValuesRoundTrip(items);
  }

  lemma {:induction false} ValuesRoundTrip(items: seq<Item>)
    ensures ValuesToItems(ValuesOf(items)) == Ok(items)
    decreases items
  {
    if items != [] {
      ValueRoundTrip(items[0]);
      ValuesRoundTrip(items[1..]);
      ValuesCons(ValueOf(items[0]), ValuesOf(items[1..]), items[0], items[1..]);
      assert items == [items[0]] + items[1..];
    }
  }

  lemma ValuesCons(value: Value, values: seq<Value>, item: Item, items: seq<Item>)
    requires ValueToItem(value) == Ok(item) && ValuesToItems(values) == Ok(items)
    ensures ValuesToItems([value] + values) == Ok([item] + items)
  {
    assert ([value] + values)[1..] == values;
  }

  // ---- Printing --------------------------------------------------------------------------

  function Render(item: Item): string
    decreases item
  {
    match item
    case Data(data) => "\"0x" + HexEncode(data) + "\""
    case Array(items) => "[" + RenderElements(items) + "]"
  }

  function RenderElements(items: seq<Item>): string
    decreases items, 1
  {
    if items == [] then "" else Render(items[0]) + RenderMore(items[1..])
  }

  function RenderMore(items: seq<Item>): string
    decreases items, 0
  {
    if items == [] then "" else "," + Render(items[0]) + RenderMore(items[1..])
  }

  lemma {:induction false} RenderMoreSnoc(items: seq<Item>, item: Item)
    ensures RenderMore(items + [item]) == RenderMore(items) + "," + Render(item)
  {
    if items == [] {
      assert RenderMore([item]) == "," + Render(item) + RenderMore([]);
    } else {
      assert (items + [item])[1..] == items[1..] + [item];
      RenderMoreSnoc(items[1..], item);
    }
  }

  lemma RenderElementsSnoc(items: seq<Item>, item: Item)
    ensures RenderElements(items + [item]) == RenderElements(items) + (if items == [] then "" else ",") + Render(item)
  {
    if items == [] {
      assert RenderElements([item]) == Render(item) + RenderMore([]);
    } else {
      assert (items + [item])[1..] == items[1..] + [item];
      RenderMoreSnoc(items[1..], item);
    }
  }

  /** The formatter an item writes itself to. */
  class Formatter {
    var text: string

    constructor ()
      ensures text == ""
    {
      text := "";
    }

    method Display(item: Item)
      modifies this
      ensures text == old(text) + Render(item)
      decreases item
    {
      ghost var start := text;
      match item {
        case Data(data) =>
          text := text + ("\"0x" + HexEncode(data) + "\"");
        case Array(items) =>
          text := text + "[";
          for i := 0 to |items|
            invariant text == (start + "[") + RenderElements(items[..i])
          {
            ghost var done := RenderElements(items[..i]);
            if i > 0 {
              text := text + ",";
            }
            Display(items[i]);
            Written(start + "[", done, if i > 0 then "," else "", Render(items[i]));
            RenderElementsSnoc(items[..i], items[i]);
            assert items[..i + 1] == items[..i] + [items[i]];
          }
          assert items[..|items|] == items;
          text := text + "]";
          Associative(start, "[", RenderElements(items));
          Associative(start, "[" + RenderElements(items), "]");
      }
    }

    static lemma Written(start: string, done: string, separator: string, item: string)
      ensures ((start + done) + separator) + item == start + ((done + separator) + item)
      ensures (start + done) + "" == start + done
    {
    }
  }

  // ---- Reading ---------------------------------------------------------------------------

  predicate IsSpace(c: char) {
    c == ' ' || c == '\n' || c == '\r' || c == '\t'
  }

  function SkipSpace(s: string): (t: string)
    ensures |t| <= |s|
  {
    if s != "" && IsSpace(s[0]) then SkipSpace(s[1..]) else s
  }

  datatype Parsed<T> = Parsed(value: T, rest: string)

  /** The rest of a string literal without escapes, after its opening quote. */
  function ParseQuoted(s: string): (r: Option<Parsed<string>>)
    ensures r.Some? ==> |r.value.rest| < |s|
  {
    if s == "" || s[0] == '\\' || s[0] < ' ' then None
    else if s[0] == '"' then Some(Parsed("", s[1..]))
    else
      var tail := ParseQuoted(s[1..]);
      if tail.None? then None else Some(Parsed([s[0]] + tail.value.value, tail.value.rest))
  }

  /** A JSON value at the front of a text: the literals, strings without escapes, and arrays nested
      at most `depth` deep. */
  function ParseValue(s: string, depth: nat): (r: Option<Parsed<Value>>)
    ensures r.Some? ==> |r.value.rest| < |s|
    decreases |s|, 0
  {
    var t := SkipSpace(s);
    if t == "" then None
    else if t[0] == '"' then
      var quoted := ParseQuoted(t[1..]);
      if quoted.None? then None else Some(Parsed(Text(quoted.value.value), quoted.value.rest))
    else if t[0] == '[' then
      var u := SkipSpace(t[1..]);
      if depth == 0 then None
      else if u != "" && u[0] == ']' then Some(Parsed(List([]), u[1..]))
      else
        var elements := ParseElements(u, depth - 1);
        if elements.None? then None else Some(Parsed(List(elements.value.value), elements.value.rest))
    else if StartsWith(t, "null") then Some(Parsed(Null, t[4..]))
    else if StartsWith(t, "true") then Some(Parsed(Bool(true), t[4..]))
    else if StartsWith(t, "false") then Some(Parsed(Bool(false), t[5..]))
    else None
  }

  /** One or more comma-separated values and the closing bracket. */
  function ParseElements(s: string, depth: nat): (r: Option<Parsed<seq<Value>>>)
    ensures r.Some? ==> |r.value.rest| < |s|
    decreases |s|, 1
  {
    var first := ParseValue(s, depth);
    if first.None? then None
    else
      var t := SkipSpace(first.value.rest);
      if t != "" && t[0] == ']' then Some(Parsed([first.value.value], t[1..]))
      else if t != "" && t[0] == ',' then
        var more := ParseElements(t[1..], depth);
        if more.None? then None else Some(Parsed([first.value.value] + more.value.value, more.value.rest))
      else None
  }

  function FromStr(text: string, depth: nat): Option<Value> {
    var parsed := ParseValue(text, depth);
    if parsed.Some? && SkipSpace(parsed.value.rest) == "" then Some(parsed.value.value) else None
  }

  function Depth(item: Item): nat
    decreases item
  {
    match item case Data(_) => 0 case Array(items) => 1 + MaxDepth(items)
  }

  function MaxDepth(items: seq<Item>): nat
    decreases items
  {
    if items == [] then 0
    else if Depth(items[0]) > MaxDepth(items[1..]) then Depth(items[0])
    else MaxDepth(items[1..])
  }

  predicate IsPlain(c: char) {
    c != '"' && c != '\\' && c >= ' '
  }

  lemma {:induction false} ParsePlain(s: string, tail: string)
    requires forall c :: c in s ==> IsPlain(c)
    ensures ParseQuoted(s + ("\"" + tail)) == Some(Parsed(s, tail))
  {
    if s == "" {
      assert s + ("\"" + tail) == "\"" + tail && ("\"" + tail)[1..] == tail;
    } else {
      var text := s + ("\"" + tail);
      assert s[0] in s && text[1..] == s[1..] + ("\"" + tail);
      ParsePlain(s[1..], tail);
      assert s == [s[0]] + s[1..];
    }
  }

  lemma ParseData(data: Bytes, tail: string, depth: nat)
    ensures ParseValue(Render(Data(data)) + tail, depth) == Some(Parsed(ValueOf(Data(data)), tail))
  {
    var s := "0x" + HexEncode(data);
    HexDigitsOnly(data);
    ParsePlain(s, tail);
    var text := Render(Data(data)) + tail;
    assert text == ['"'] + (s + ("\"" + tail));
    assert text[1..] == s + ("\"" + tail);
  }

  /** What an item prints is read back as its value when it nests no deeper than the reader
      allows, and refused otherwise. */
  lemma {:induction false} ParseRender(item: Item, tail: string, depth: nat)
    ensures ParseValue(Render(item) + tail, depth) ==
            if Depth(item) <= depth then Some(Parsed(ValueOf(item), tail)) else None
    decreases item, 0
  {
    match item
    case Data(data) => ParseData(data, tail, depth);
    case Array(items) =>
      var u := RenderElements(items) + ("]" + tail);
      assert Render(item) + tail == ['['] + u;
      if items == [] {
        assert u == "]" + tail;
        ParseEmptyArray(tail, depth);
      } else {
        FirstChar(items, "]" + tail);
        if depth > 0 {
          ParseRenderElements(items, tail, depth - 1);
        }
        ParseArray(u, depth);
      }
  }

  lemma ParseEmptyArray(tail: string, depth: nat)
    ensures ParseValue(['['] + ("]" + tail), depth) == if depth > 0 then Some(Parsed(List([]), tail)) else None
  {
    var text := ['['] + ("]" + tail);
    assert text[1..] == "]" + tail && ("]" + tail)[1..] == tail;
  }

  lemma ParseArray(u: string, depth: nat)
    requires u != "" && !IsSpace(u[0]) && u[0] != ']'
    ensures ParseValue(['['] + u, depth) ==
            if depth == 0 || ParseElements(u, depth - 1).None? then None
            else Some(Parsed(List(ParseElements(u, depth - 1).value.value), ParseElements(u, depth - 1).value.rest))
  {
    assert (['['] + u)[1..] == u;
  }

  lemma FirstChar(items: seq<Item>, tail: string)
    requires items != []
    ensures var u := RenderElements(items) + tail;
            u != "" && !IsSpace(u[0]) && u[0] != ']'
  {
    assert Render(items[0]) != "" && (Render(items[0])[0] == '"' || Render(items[0])[0] == '[');
  }

  lemma {:induction false} ParseRenderElements(items: seq<Item>, tail: string, depth: nat)
    requires items != []
    ensures ParseElements(RenderElements(items) + ("]" + tail), depth) ==
            if MaxDepth(items) <= depth then Some(Parsed(ValuesOf(items), tail)) else None
    decreases items, 1
  {
    var rest, end := items[1..], "]" + tail;
    var more := RenderMore(rest) + end;
    assert RenderElements(items) + end == Render(items[0]) + more by {
      Associative(Render(items[0]), RenderMore(rest), end);
    }
    ParseRender(items[0], more, depth);
    if rest == [] {
      assert more == end && more[1..] == tail;
      assert [ValueOf(items[0])] + [] == [ValueOf(items[0])];
    } else {
      assert more != "" && more[0] == ',' && more[1..] == RenderElements(rest) + end by {
        MoreIsElements(rest, end);
      }
      ParseRenderElements(rest, tail, depth);
    }
    if Depth(items[0]) <= depth {
      ParseNext(Render(items[0]) + more, depth, ValueOf(items[0]), more);
    }
  }

  /** After an element, the closing bracket or a comma decides. */
  lemma ParseNext(s: string, depth: nat, value: Value, rest: string)
    requires ParseValue(s, depth) == Some(Parsed(value, rest)) && rest != "" && (rest[0] == ']' || rest[0] == ',')
    ensures ParseElements(s, depth) ==
            if rest[0] == ']' then Some(Parsed([value], rest[1..]))
            else
              var more := ParseElements(rest[1..], depth);
              if more.None? then None else Some(Parsed([value] + more.value.value, more.value.rest))
  {
  }

  lemma MoreIsElements(items: seq<Item>, tail: string)
    requires items != []
    ensures RenderMore(items) + tail == [','] + (RenderElements(items) + tail)
    ensures (RenderMore(items) + tail)[1..] == RenderElements(items) + tail
  {
    var first, more := Render(items[0]), RenderMore(items[1..]);
    CommaFirst(first, more, tail);
  }

  lemma CommaFirst(first: string, more: string, tail: string)
    ensures ("," + first + more) + tail == [','] + ((first + more) + tail)
    ensures (("," + first + more) + tail)[1..] == (first + more) + tail
  {
  }

  // ---- The two commands ------------------------------------------------------------------

  /** `cast from-rlp`: decode the item at the front and print it. */
  function FromRlp(text: string): Result<string, ConvertError> {
    var bytes := HexDecode(text);
    if bytes.None? then Err(NotHex)
    else
      match Decode(bytes.value)
      case Err(e) => Err(NotRlp(e))
      case Ok(Decoded(item, _)) => Ok(Render(item))
  }

  /** `cast to-rlp`: read JSON, or take the text itself as one hex string, and encode. */
  function ToRlp(text: string, depth: nat): Result<string, ConvertError> {
    var parsed := FromStr(text, depth);
    match ValueToItem(if parsed.Some? then parsed.value else Text(text))
    case Err(e) => Err(e)
    case Ok(item) => if Fits(item) then Ok("0x" + HexEncode(Encode(item))) else Err(TooLong)
  }

  /** Reading back what an item prints encodes the item, unless it is nested too deep. */
  lemma ToRlpOfRender(item: Item, depth: nat)
    ensures ToRlp(Render(item), depth) ==
            if Depth(item) > depth then Err(NotHex)
            else if Fits(item) then Ok("0x" + HexEncode(Encode(item)))
            else Err(TooLong)
  {
    ParseRender(item, "", depth);
    assert Render(item) + "" == Render(item);
    ValueRoundTrip(item);
    if Depth(item) > depth {
      NotHexText(item);
    }
  }

  lemma NotHexText(item: Item)
    requires item.Array?
    ensures HexDecode(Render(item)) == None
  {
    assert Render(item)[0] == '[';
  }

  /** `to-rlp` after `from-rlp` gives back the bytes that were decoded: all of them when nothing
      trailed the item. It fails exactly on items nested deeper than the JSON reader allows. */
  lemma ToRlpUndoesFromRlp(bytes: Bytes, depth: nat)
    requires |bytes| < LENGTH_LIMIT && Decode(bytes).Ok?
    ensures var Decoded(item, rest) := Decode(bytes).value;
            var text := FromRlp("0x" + HexEncode(bytes));
            && text == Ok(Render(item))
            && ToRlp(text.value, depth) ==
               if Depth(item) <= depth then Ok("0x" + HexEncode(bytes[..|bytes| - |rest|])) else Err(NotHex)
  {
    var Decoded(item, rest) := Decode(bytes).value;
    HexDecodeEncode(bytes);
    ToRlpOfRender(item, depth);
    EncodeDecode(bytes);
    assert bytes[..|bytes| - |rest|] == Encode(item);
  }

  /** An empty array in that many arrays. */
  function Nested(n: nat): Item {
    if n == 0 then Array([]) else Array([Nested(n - 1)])
  }

  lemma {:induction false} NestedDepth(n: nat)
    ensures Depth(Nested(n)) == n + 1
  {
    if n > 0 {
      NestedDepth(n - 1);
      var items := [Nested(n - 1)];
      assert items[1..] == [] && MaxDepth(items) == Depth(items[0]);
    }
  }

  /** Whatever the limit of the reader, an item nested one deeper than that is printed as a text that
      is refused. */
  lemma NestedTooDeep(depth: nat)
    ensures ToRlp(Render(Nested(depth)), depth) == Err(NotHex)
  {
    NestedDepth(depth);
    ToRlpOfRender(Nested(depth), depth);
  }

  // ---- What the commands answer ----------------------------------------------------------

  /** A null is the empty string, a number below 2^256 its big-endian bytes without leading zeros, a text
      what it says in hex, an array its items; anything else is refused. */
  lemma ItemOfValue(value: Value)
    ensures var r := ValueToItem(value);
            match value
            case Null => r == Ok(Data([]))
            case Bool(_) => r == Err(Boolean)
            case Number(n) =>
              if n.None? || n.value >= U256 then r == Err(NotANumber)
              else r.Ok? && r.value.Data? && FromBigEndian(r.value.bytes) == n.value &&
                   (r.value.bytes != [] ==> r.value.bytes[0] != 0)
            case Text(s) =>
              if HexDecode(s) == None then r == Err(NotHex) else r == Ok(Data(HexDecode(s).value))
            case List(values) =>
              if r.Ok? then
                && r.value.Array? && |r.value.items| == |values|
                && forall i :: 0 <= i < |values| ==> ValueToItem(values[i]) == Ok(r.value.items[i])
              else exists i :: 0 <= i < |values| && ValueToItem(values[i]).Err?
            case Members => r == Err(AnObject)
  {
    match value
    case Number(n) =>
      if n.Some? {
        BigEndianRoundTrip(n.value);
        if n.value == 0 {
          assert BigEndian(0) == [];
        }
      }
    case List(values) => ItemsOfValues(values);
    case _ =>
  }

  /** The items of an array are those of its values, one by one; the first that is refused decides. */
  lemma {:induction false} ItemsOfValues(values: seq<Value>)
    ensures var r := ValuesToItems(values);
            && (r.Ok? <==> forall i :: 0 <= i < |values| ==> ValueToItem(values[i]).Ok?)
            && (r.Ok? ==> |r.value| == |values| &&
                          forall i :: 0 <= i < |values| ==> ValueToItem(values[i]) == Ok(r.value[i]))
  {
    if values != [] {
      ItemsOfValues(values[1..]);
      assert forall i :: 0 < i < |values| ==> values[i] == values[1..][i - 1];
      assert values[0] == values[0];
    }
  }

  /** Hex text that is not JSON is encoded as one string. */
  lemma ToRlpOfHex(bytes: Bytes, depth: nat)
    requires |bytes| < LENGTH_LIMIT
    ensures ToRlp("0x" + HexEncode(bytes), depth) == Ok("0x" + HexEncode(Encode(Data(bytes))))
  {
    var text := "0x" + HexEncode(bytes);
    assert text[0] == '0';
    NotJson(text, depth);
    HexDecodeEncode(bytes);
    ToRlpOfText(text, depth);
  }

  /** Whatever is not JSON must be hex text of a string. */
  lemma ToRlpOfText(text: string, depth: nat)
    requires FromStr(text, depth) == None
    ensures HexDecode(text) == None ==> ToRlp(text, depth) == Err(NotHex)
    ensures HexDecode(text).Some? && |HexDecode(text).value| < LENGTH_LIMIT ==>
      ToRlp(text, depth) == Ok("0x" + HexEncode(Encode(Data(HexDecode(text).value))))
  {
  }

  lemma NotJson(text: string, depth: nat)
    requires text != "" && text[0] == '0'
    ensures FromStr(text, depth) == None
  {
    assert SkipSpace(text) == text;
    assert |text| >= 4 ==> text[..4][0] == '0';
    assert |text| >= 5 ==> text[..5][0] == '0';
  }

  /** The literals of JSON. */
  lemma ToRlpOfLiterals(depth: nat)
    ensures ToRlp("null", depth) == Ok("0x80")
    ensures ToRlp("true", depth) == Err(Boolean) && ToRlp("false", depth) == Err(Boolean)
  {
    LiteralsParse(depth);
    NullIsEmpty();
  }

  lemma NullIsEmpty()
    ensures Fits(Data([])) && "0x" + HexEncode(Encode(Data([]))) == "0x80"
  {
    Empties();
    HexOfOne(0x80);
  }

  lemma HexOfOne(b: Byte)
    ensures HexEncode([b]) == [DigitChar(b / 16), DigitChar(b % 16)]
  {
    assert [b][1..] == [] && HexEncode([]) == "";
  }

  lemma LiteralsParse(depth: nat)
    ensures FromStr("null", depth) == Some(Null)
    ensures FromStr("true", depth) == Some(Bool(true)) && FromStr("false", depth) == Some(Bool(false))
  {
    assert "null"[4..] == "" && "true"[4..] == "" && "false"[5..] == "";
    assert "null"[..4] == "null" && "true"[..4] == "true" && "false"[..5] == "false";
    assert SkipSpace("null") == "null" && SkipSpace("true") == "true" && SkipSpace("false") == "false";
    assert "true"[..4][0] == 't' && "false"[..4][0] == 'f';
  }

  /** Decoding answers with the text of the item at the front, and otherwise says what was wrong. */
  lemma FromRlpIs(text: string)
    ensures HexDecode(text) == None ==> FromRlp(text) == Err(NotHex)
    ensures HexDecode(text).Some? ==>
      match Decode(HexDecode(text).value)
      case Err(e) => FromRlp(text) == Err(NotRlp(e))
      case Ok(Decoded(item, _)) => FromRlp(text) == Ok(Render(item))
  {
  }

  /** Items are printed without spaces, as lower-case hex. */
  lemma RenderIs(item: Item)
    ensures item.Data? ==> Render(item) == "\"0x" + HexEncode(item.bytes) + "\""
    ensures item.Array? && item.items == [] ==> Render(item) == "[]"
    ensures item.Array? && |item.items| == 1 ==> Render(item) == "[" + Render(item.items[0]) + "]"
    ensures item.Array? && |item.items| == 2 ==>
      Render(item) == "[" + Render(item.items[0]) + "," + Render(item.items[1]) + "]"
  {
    if item.Array? && |item.items| == 1 {
      assert item.items[1..] == [] && RenderMore([]) == "";
      assert RenderElements(item.items) == Render(item.items[0]) + "" == Render(item.items[0]);
    } else if item.Array? && |item.items| == 2 {
      var rest := item.items[1..];
      assert rest[1..] == [] && RenderMore(rest) == "," + Render(rest[0]) + "" == "," + Render(rest[0]);
      assert RenderElements(item.items) == Render(item.items[0]) + ("," + Render(rest[0]));
    }
  }

  lemma {:induction false} HexIsLowerCase(bytes: Bytes)
    ensures |HexEncode(bytes)| == 2 * |bytes|
    ensures forall c :: c in HexEncode(bytes) ==> '0' <= c <= '9' || 'a' <= c <= 'f'
  {
    if bytes != [] {
      HexIsLowerCase(bytes[1..]);
    }
  }

  /** Hex text is pairs of digits, of either case. */
  lemma {:induction false} HexPairsIff(s: string)
    ensures HexPairs(s).Some? <==> |s| % 2 == 0 && forall c :: c in s ==> IsHexDigit(c)
    ensures HexPairs(s).Some? ==> |HexPairs(s).value| == |s| / 2
  {
    assert forall c :: DigitValue(c, 16).Some? <==> IsHexDigit(c);
    if |s| >= 2 {
      HexPairsIff(s[2..]);
      assert s == [s[0], s[1]] + s[2..];
      assert forall c :: c in s <==> c == s[0] || c == s[1] || c in s[2..];
    } else if |s| == 1 {
      assert s[0] in s;
    }
  }

  predicate IsHexDigit(c: char) {
    '0' <= c <= '9' || 'a' <= c <= 'f' || 'A' <= c <= 'F'
  }

  /** A 0x in front is read over. */
  lemma PrefixIsReadOver(s: string)
    requires forall c :: c in s ==> IsHexDigit(c)
    ensures HexDecode("0x" + s) == HexPairs(s) && HexDecode(s) == HexPairs(s)
  {
    assert ("0x" + s)[2..] == s && ("0x" + s)[..2] == "0x";
    assert |s| >= 2 ==> s[1] in s && s[..2][1] == s[1];
  }

  /** White space between the tokens of JSON does not count. */
  lemma SpaceDoesNotCount(c: char, s: string, depth: nat)
    requires c == ' ' || c == '\n' || c == '\r' || c == '\t'
    ensures ParseValue([c] + s, depth) == ParseValue(s, depth)
    ensures ParseElements([c] + s, depth) == ParseElements(s, depth)
  {
    assert ([c] + s)[1..] == s;
    assert SkipSpace([c] + s) == SkipSpace(s);
  }
}

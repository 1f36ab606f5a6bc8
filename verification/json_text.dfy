/** JSON values and their compact text form (section 2 to 7 of RFC 8259): the objects a
    sensor app puts on the wire, and the values the server reads out of them. */
module JsonText {

  datatype Json =
    | JNull
    | JBool(b: bool)
    | JNumber(n: int)
    | JString(s: string)
    | JArray(elems: seq<Json>)
    | JObject(members: seq<Member>)

  datatype Member = Member(key: string, value: Json)

  /** The characters that mean something to a brace-and-quote scanner. */
  predicate Special(c: char) {
    c == '"' || c == '\\' || c == '{' || c == '}'
  }

  /** Text with none of the special characters. */
  predicate Plain(t: string) {
    forall i :: 0 <= i < |t| ==> !Special(t[i])
  }

  function Digit(d: nat): (c: char)
    requires d < 10
    ensures '0' <= c <= '9'
  {
    "0123456789"[d]
  }

  function HexDigit(d: nat): (c: char)
    requires d < 16
    ensures !Special(c)
  {
    "0123456789abcdef"[d]
  }

  /** Decimal digits of a natural number, most significant first, no leading zeros. */
  function NatText(n: nat): (t: string)
    ensures |t| > 0 && Plain(t)
    ensures forall i :: 0 <= i < |t| ==> '0' <= t[i] <= '9'
  {
    if n < 10 then [Digit(n)] else NatText(n / 10) + [Digit(n % 10)]
  }

  /** A JSON number for an integer: an optional minus sign and decimal digits. */
  function IntText(n: int): (t: string)
    ensures |t| > 0 && Plain(t)
  {
    if n < 0 then "-" + NatText(-n) else NatText(n)
  }

  /** One character of a string's contents, escaped: quote and backslash get a
      backslash, control characters a six-character `\u00XX` escape. */
  function EscapeChar(c: char): (t: string)
    ensures |t| >= 1
    ensures t[0] == '\\' <==> c == '"' || c == '\\' || c < ' '
    ensures t[0] != '\\' ==> t == [c]
  {
    if c == '"' then "\\\""
    else if c == '\\' then "\\\\"
    else if c < ' ' then "\\u00" + [HexDigit(c as nat / 16), HexDigit(c as nat % 16)]
    else [c]
  }

  /** The escaped contents of a string, one character after another. */
  function Escape(s: string): (t: string)
    ensures |t| >= |s|
  {
    if |s| == 0 then "" else EscapeChar(s[0]) + Escape(s[1..])
  }

  /** A JSON string: the escaped contents between double quotes. */
  function Quote(s: string): (t: string)
    ensures |t| >= 2 && t[0] == '"' && t[|t| - 1] == '"'
  {
    "\"" + Escape(s) + "\""
  }

  /** Compact text of a JSON value: no whitespace between tokens. */
  function Serialize(j: Json): (t: string)
    ensures |t| > 0
    ensures j.JObject? ==> t[0] == '{' && t[|t| - 1] == '}'
  {
    match j
    case JNull => "null"
    case JBool(b) => if b then "true" else "false"
    case JNumber(n) => IntText(n)
    case JString(s) => Quote(s)
    case JArray(xs) => "[" + SerializeElems(xs) + "]"
    case JObject(ms) => "{" + SerializeMembers(ms) + "}"
  }

  /** Array elements separated by commas. */
  function SerializeElems(xs: seq<Json>): string {
    if |xs| == 0 then ""
    else if |xs| == 1 then Serialize(xs[0])
    else Serialize(xs[0]) + "," + SerializeElems(xs[1..])
  }

  /** Object members as `key:value`, separated by commas. */
  function SerializeMembers(ms: seq<Member>): string {
    if |ms| == 0 then ""
    else if |ms| == 1 then SerializeMember(ms[0])
    else SerializeMember(ms[0]) + "," + SerializeMembers(ms[1..])
  }

  function SerializeMember(m: Member): string {
    Quote(m.key) + ":" + Serialize(m.value)
  }

  /** The string's last character is a backslash. */
  predicate EndsInBackslash(s: string) {
    |s| > 0 && s[|s| - 1] == '\\'
  }

  /** No string in the value, key or contents, ends in a backslash. */
  predicate NoTrailingBackslash(j: Json) {
    match j
    case JString(s) => !EndsInBackslash(s)
    case JArray(xs) => forall i :: 0 <= i < |xs| ==> NoTrailingBackslash(xs[i])
    case JObject(ms) =>
      forall i :: 0 <= i < |ms| ==> !EndsInBackslash(ms[i].key) && NoTrailingBackslash(ms[i].value)
    case _ => true
  }
}

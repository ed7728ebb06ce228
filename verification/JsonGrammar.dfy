/**
  JSON texts as sections 2 to 7 of RFC 8259 define them: concrete syntax trees, white
  space included, and the text each of them stands for. Characters may be read as bytes:
  every byte of a multi-byte character is above 0x7F and so an ordinary character here.
*/
module JsonGrammar {
  import opened Wrappers
  import opened Text

  /** One character of a string literal (section 7). */
  datatype Char =
    | Unescaped(c: char)
    | Escape(c: char)
    | UnicodeEscape(hex: string)

  /** A number (section 6). */
  datatype Exponent = Exponent(e: char, sign: string, digits: string)
  datatype Number = Number(minus: bool, whole: string, frac: Option<string>, exp: Option<Exponent>)

  datatype Value =
    | False
    | Null
    | True
    | Num(number: Number)
    | Str(chars: seq<Char>)
    | Array(pad: string, items: Items)
    | Object(pad: string, members: Members)

  /** Array elements (section 5), each with the white space around it. */
  datatype Items = NoItems | Item(before: string, value: Value, after: string, rest: Items)

  /** Object members (section 4). */
  datatype Members =
    | NoMembers
    | Member(before: string, name: seq<Char>, beforeColon: string, afterColon: string,
             value: Value, after: string, rest: Members)

  predicate IsWs(s: string) {
    forall c <- s :: c == ' ' || c == '\t' || c == '\n' || c == '\r'
  }

  predicate IsDigits(s: string) {
    s != "" && forall c <- s :: '0' <= c <= '9'
  }

  predicate ValidChar(ch: Char) {
    match ch
    case Unescaped(c) => c >= ' ' && c != '"' && c != '\\'
    case Escape(c) => c in "\"\\/bfnrt"
    case UnicodeEscape(hex) => |hex| == 4 && forall c <- hex :: IsHexDigit(c)
  }

  predicate ValidChars(chars: seq<Char>) {
    forall ch <- chars :: ValidChar(ch)
  }

  predicate ValidNumber(n: Number) {
    && IsDigits(n.whole) && (n.whole[0] == '0' ==> |n.whole| == 1)
    && (n.frac.Some? ==> IsDigits(n.frac.value))
    && (n.exp.Some? ==>
          && (n.exp.value.e == 'e' || n.exp.value.e == 'E')
          && n.exp.value.sign in ["", "+", "-"]
          && IsDigits(n.exp.value.digits))
  }

  predicate ValidValue(v: Value) {
    match v
    case False => true
    case Null => true
    case True => true
    case Num(n) => ValidNumber(n)
    case Str(chars) => ValidChars(chars)
    case Array(pad, items) => IsWs(pad) && ValidItems(items)
    case Object(pad, members) => IsWs(pad) && ValidMembers(members)
  }

  predicate ValidItems(items: Items) {
    match items
    case NoItems => true
    case Item(before, v, after, rest) => IsWs(before) && ValidValue(v) && IsWs(after) && ValidItems(rest)
  }

  predicate ValidMembers(members: Members) {
    match members
    case NoMembers => true
    case Member(before, name, beforeColon, afterColon, v, after, rest) =>
      && IsWs(before) && ValidChars(name) && IsWs(beforeColon) && IsWs(afterColon)
      && ValidValue(v) && IsWs(after) && ValidMembers(rest)
  }

  function CharText(ch: Char): string {
    match ch
    case Unescaped(c) => [c]
    case Escape(c) => ['\\', c]
    case UnicodeEscape(hex) => "\\u" + hex
  }

  function CharsText(chars: seq<Char>): string {
    if chars == [] then "" else CharText(chars[0]) + CharsText(chars[1..])
  }

  function StringText(chars: seq<Char>): string {
    "\"" + CharsText(chars) + "\""
  }

  function NumberText(n: Number): string {
    (if n.minus then "-" else "") + n.whole
    + (match n.frac case None => "" case Some(digits) => "." + digits)
    + (match n.exp case None => "" case Some(x) => [x.e] + x.sign + x.digits)
  }

  function ValueText(v: Value): string {
    match v
    case False => "false"
    case Null => "null"
    case True => "true"
    case Num(n) => NumberText(n)
    case Str(chars) => StringText(chars)
    case Array(pad, items) => "[" + (pad + ItemsText(items)) + "]"
    case Object(pad, members) => "{" + (pad + MembersText(members)) + "}"
  }

  function ItemsText(items: Items): string {
    match items
    case NoItems => ""
    case Item(before, v, after, rest) =>
      before + (ValueText(v) + (after + (if rest.NoItems? then "" else "," + ItemsText(rest))))
  }

  function MembersText(members: Members): string {
    match members
    case NoMembers => ""
    case Member(before, name, beforeColon, afterColon, v, after, rest) =>
      before + (StringText(name) + ((beforeColon + ":" + afterColon) + (ValueText(v)
        + (after + (if rest.NoMembers? then "" else "," + MembersText(rest))))))
  }
}

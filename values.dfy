/** The values that flow between HTTP bodies, handlers and table columns: JSON
    values as JavaScript sees them, with their truthiness, their `String(...)`
    text, `JSON.stringify` and `parseInt`; plus the response envelope shared by
    every handler. */
module Values {
  import opened Strings
  import CivilDate

  datatype Option<+T> = None | Some(value: T)

  /** A JSON value as a handler receives it. `Null` also stands for `undefined`:
      both are falsy and both reach SQL as NULL. `Day(d)` stands for a date-only
      string "YYYY-MM-DD" naming the civil date `d`. Numbers are integers. */
  datatype Value =
    | Null
    | Bool(b: bool)
    | Int(i: int)
    | Str(s: string)
    | Day(date: CivilDate.Date)
    | List(items: seq<Value>)
    | Object(members: seq<Member>)

  datatype Member = Member(key: string, value: Value)

  /** JavaScript truthiness: null, false, 0 and "" are falsy. */
  predicate Truthy(v: Value) {
    match v
    case Null => false
    case Bool(b) => b
    case Int(i) => i != 0
    case Str(s) => s != ""
    case _ => true
  }

  /** `v || null` */
  function OrNull(v: Value): Value {
    if Truthy(v) then v else Null
  }

  /** A parsed request body: `req.body` as a map from property name to value. */
  type Body = map<string, Value>

  /** `body.key` (an absent property reads as undefined). */
  function Field(body: Body, key: string): Value {
    if key in body then body[key] else Null
  }

  /** The response envelope: HTTP status with its payload or message. */
  datatype Response<+T> =
    | Ok(value: T)
    | Created(value: T)
    | BadRequest(message: string)
    | NotFound(message: string)
    | Conflict(message: string)
    | Unauthorized(message: string)
    | ServerError(message: string)
  {
    function StatusCode(): int {
      match this
      case Ok(_) => 200
      case Created(_) => 201
      case BadRequest(_) => 400
      case NotFound(_) => 404
      case Conflict(_) => 409
      case Unauthorized(_) => 401
      case ServerError(_) => 500
    }

    predicate IsSuccess() { Ok? || Created? }
  }

  /** `req.user` as the authentication middleware leaves it. */
  datatype AuthUser = AuthUser(id: Value, name: Value, email: Value)

  /** The audit stamp `req.user?.name || req.user?.email || 'Sistema'`. */
  function Actor(user: Option<AuthUser>): Value {
    if user.Some? && Truthy(user.value.name) then user.value.name
    else if user.Some? && Truthy(user.value.email) then user.value.email
    else Str("Sistema")
  }

  /** The stamp is never falsy, and the name wins over the email, which wins over 'Sistema'. */
  lemma ActorPrecedence(user: Option<AuthUser>)
    ensures Truthy(Actor(user))
    ensures user.Some? && Truthy(user.value.name) ==> Actor(user) == user.value.name
    ensures user.Some? && !Truthy(user.value.name) && Truthy(user.value.email) ==> Actor(user) == user.value.email
    ensures (user.None? || (!Truthy(user.value.name) && !Truthy(user.value.email))) ==> Actor(user) == Str("Sistema")
  {
  }

  // ---------------------------------------------------------------- numbers as text

  function DigitChar(d: int): char
    requires 0 <= d <= 9
  {
    ('0' as int + d) as char
  }

  function DigitValue(c: char): int
    requires IsDigit(c)
  {
    c as int - '0' as int
  }

  /** The decimal digits of a natural number, most significant first. */
  function Digits(n: nat): (r: string)
    ensures |r| >= 1
    ensures forall c :: c in r ==> IsDigit(c)
  {
    if n < 10 then [DigitChar(n)] else Digits(n / 10) + [DigitChar(n % 10)]
  }

  /** `String(i)` for an integer. */
  function Decimal(i: int): (r: string)
    ensures r != [] && (r[0] == '-' || IsDigit(r[0]))
  {
    if i < 0 then "-" + Digits(-i) else Digits(i)
  }

  /** The number a run of decimal digits denotes. */
  function DigitsValue(ds: string): nat
    requires forall c :: c in ds ==> IsDigit(c)
  {
    if ds == [] then 0
    else
      assert ds[|ds| - 1] in ds;
      DigitsValue(ds[..|ds| - 1]) * 10 + DigitValue(ds[|ds| - 1])
  }

  /** The longest prefix of `s` made of decimal digits. */
  function DigitPrefix(s: string): (r: string)
    ensures StartsWith(s, r)
    ensures forall c :: c in r ==> IsDigit(c)
    ensures |r| < |s| ==> !IsDigit(s[|r|])
  {
    if s != [] && IsDigit(s[0]) then [s[0]] + DigitPrefix(s[1..]) else []
  }

  function HexValue(c: char): int {
    if '0' <= c <= '9' then c as int - '0' as int
    else if 'a' <= c <= 'f' then c as int - 'a' as int + 10
    else if 'A' <= c <= 'F' then c as int - 'A' as int + 10
    else -1
  }

  /** The longest prefix of hexadecimal digits and the number it denotes. */
  function HexPrefixValue(s: string, acc: nat, seen: bool): Option<int> {
    if s != [] && HexValue(s[0]) >= 0 then HexPrefixValue(s[1..], acc * 16 + HexValue(s[0]), true)
    else if seen then Some(acc) else None
  }

  /** `parseInt(text)` with no radix: leading whitespace is skipped, then an optional
      sign, then a `0x` prefix selects base 16; the longest run of digits is read and
      no digit at all is NaN (`None`). */
  function ParseIntText(text: string): Option<int> {
    var s := TrimStart(text);
    var negative := s != [] && s[0] == '-';
    var unsigned := if s != [] && (s[0] == '-' || s[0] == '+') then s[1..] else s;
    var magnitude :=
      if StartsWith(unsigned, "0x") || StartsWith(unsigned, "0X") then HexPrefixValue(unsigned[2..], 0, false)
      else
        var ds := DigitPrefix(unsigned);
        if ds == [] then None else Some(DigitsValue(ds));
    match magnitude
    case None => None
    case Some(k) => Some(if negative then -k else k)
  }

  lemma {:induction false} HexPrefixAtLeast(s: string, acc: nat, seen: bool)
    ensures HexPrefixValue(s, acc, seen).Some? ==> HexPrefixValue(s, acc, seen).value >= acc
  {
    if s != [] && HexValue(s[0]) >= 0 {
      HexPrefixAtLeast(s[1..], acc * 16 + HexValue(s[0]), true);
    }
  }

  /** A text without a single decimal digit is NaN, and a negative result needs a
      `-` as the first character after the leading whitespace. */
  lemma ParseIntNaN(text: string)
    ensures (forall c :: c in text ==> !IsDigit(c)) ==> ParseIntText(text).None?
    ensures ParseIntText(text).Some? && ParseIntText(text).value < 0 ==>
      TrimStart(text) != [] && TrimStart(text)[0] == '-'
  {
    var s := TrimStart(text);
    var unsigned := if s != [] && (s[0] == '-' || s[0] == '+') then s[1..] else s;
    if StartsWith(unsigned, "0x") || StartsWith(unsigned, "0X") {
      HexPrefixAtLeast(unsigned[2..], 0, false);
    }
    assert unsigned != [] ==> unsigned[0] in text by {
      if unsigned != [] {
        assert unsigned[0] in s;
        assert s == text[|text| - |s|..];
      }
    }
    assert StartsWith(unsigned, "0x") || StartsWith(unsigned, "0X") ==> unsigned[0] == '0' by {
      if StartsWith(unsigned, "0x") || StartsWith(unsigned, "0X") { assert unsigned[..2][0] == unsigned[0]; }
    }
    assert DigitPrefix(unsigned) != [] ==> IsDigit(unsigned[0]) by {
      var ds := DigitPrefix(unsigned);
      if ds != [] { assert ds[0] in ds && unsigned[..|ds|][0] == unsigned[0]; }
    }
  }

  lemma {:induction false} DigitsValueOfDigits(n: nat)
    ensures DigitsValue(Digits(n)) == n
  {
    if n >= 10 {
      DigitsValueOfDigits(n / 10);
      var ds := Digits(n);
      assert ds[..|ds| - 1] == Digits(n / 10);
    }
  }

  lemma {:induction false} DigitPrefixOfDigits(ds: string)
    requires forall c :: c in ds ==> IsDigit(c)
    ensures DigitPrefix(ds) == ds
  {
    if ds != [] {
      assert ds[0] in ds;
      forall c | c in ds[1..] ensures IsDigit(c) { assert c in ds; }
      DigitPrefixOfDigits(ds[1..]);
      assert [ds[0]] + ds[1..] == ds;
    }
  }

  lemma ParseDigitRun(s: string, ds: string, negative: bool)
    requires |ds| >= 1 && forall c :: c in ds ==> IsDigit(c)
    requires s == if negative then "-" + ds else ds
    ensures ParseIntText(s) == Some(if negative then 0 - DigitsValue(ds) else DigitsValue(ds) as int)
  {
    assert ds[0] in ds;
    assert !IsWhitespace(s[0]);
    assert TrimStart(s) == s;
    var unsigned := if s[0] == '-' || s[0] == '+' then s[1..] else s;
    assert unsigned == ds by {
      if negative { assert s[1..] == ds; }
    }
    if |ds| >= 2 {
      assert ds[1] in ds;
      assert ds[..2][1] == ds[1];
    }
    assert !StartsWith(ds, "0x") && !StartsWith(ds, "0X");
    DigitPrefixOfDigits(ds);
  }

  /** `parseInt(String(i)) === i`: the text of an integer parses back to it. */
  lemma ParseIntOfDecimal(i: int)
    ensures ParseIntText(Decimal(i)) == Some(i)
  {
    var n: nat := if i < 0 then -i else i;
    DigitsValueOfDigits(n);
    ParseDigitRun(Decimal(i), Digits(n), i < 0);
  }

  /** Zero-padded decimal digits of at least `width` characters. */
  function Padded(n: nat, width: nat): string {
    var ds := Digits(n);
    if |ds| >= width then ds else seq(width - |ds|, _ => '0') + ds
  }

  /** The ISO text "YYYY-MM-DD" of a date. */
  function IsoDate(d: CivilDate.Date): string {
    var year := if d.year < 0 then "-" + Padded(-d.year, 6) else Padded(d.year, 4);
    year + "-" + Padded(if d.month < 0 then 0 else d.month, 2) + "-" + Padded(if d.day < 0 then 0 else d.day, 2)
  }

  // ---------------------------------------------------------------- String(v), join, JSON.stringify

  /** `String(v)`, which is also what a template literal `${v}` inserts. */
  function ToText(v: Value): string
    decreases v, 1
  {
    match v
    case Null => "null"
    case Bool(b) => if b then "true" else "false"
    case Int(i) => Decimal(i)
    case Str(s) => s
    case Day(d) => IsoDate(d)
    case List(items) => JoinItems(items, v)
    case Object(_) => "[object Object]"
  }

  /** The text `Array.prototype.join` uses for one element: null becomes "". */
  function ItemText(v: Value): string
    decreases v, 2
  {
    if v == Null then "" else ToText(v)
  }

  /** `items.join(",")`, which is also `String(items)`. */
  function JoinItems(items: seq<Value>, ghost parent: Value): string
    requires forall x :: x in items ==> x < parent
    decreases parent, 0, |items|
  {
    if items == [] then ""
    else
      assert items[0] in items;
      assert forall x :: x in items[1..] ==> x in items;
      if |items| == 1 then ItemText(items[0]) else ItemText(items[0]) + "," + JoinItems(items[1..], parent)
  }

  function HexDigit(d: int): char
    requires 0 <= d < 16
  {
    if d < 10 then DigitChar(d) else ('a' as int + d - 10) as char
  }

  /** One character inside a JSON string literal. */
  function EscapeChar(c: char): string {
    if c == '"' then "\\\""
    else if c == '\\' then "\\\\"
    else if c == '\n' then "\\n"
    else if c == '\r' then "\\r"
    else if c == '\t' then "\\t"
    else if c as int == 0x08 then "\\b"
    else if c as int == 0x0C then "\\f"
    else if c as int < 0x20 then "\\u00" + [HexDigit(c as int / 16), HexDigit(c as int % 16)]
    else [c]
  }

  function EscapeText(s: string): string {
    if s == [] then [] else EscapeChar(s[0]) + EscapeText(s[1..])
  }

  /** A JSON string literal. */
  function Quote(s: string): string {
    "\"" + EscapeText(s) + "\""
  }

  /** `JSON.stringify(v)`: the kind of value shows in the text's delimiters. */
  function Stringify(v: Value): (r: string)
    decreases v, 1
    ensures r != []
    ensures v.List? <==> r[0] == '['
    ensures v.List? ==> r[|r| - 1] == ']'
    ensures v.Object? <==> r[0] == '{'
    ensures v.Object? ==> r[|r| - 1] == '}'
    ensures v.Str? || v.Day? ==> r[0] == '"' && r[|r| - 1] == '"'
  {
    match v
    case Null => "null"
    case Bool(b) => if b then "true" else "false"
    case Int(i) => Decimal(i)
    case Str(s) => Quote(s)
    case Day(d) => Quote(IsoDate(d))
    case List(items) => "[" + StringifyItems(items, v) + "]"
    case Object(members) => "{" + StringifyMembers(members, v) + "}"
  }

  function StringifyItems(items: seq<Value>, ghost parent: Value): string
    requires forall x :: x in items ==> x < parent
    decreases parent, 0, |items|
  {
    if items == [] then ""
    else
      assert items[0] in items;
      assert forall x :: x in items[1..] ==> x in items;
      var first := Stringify(items[0]);
      if |items| == 1 then first else first + "," + StringifyItems(items[1..], parent)
  }

  function StringifyMembers(members: seq<Member>, ghost parent: Value): string
    requires forall m :: m in members ==> m.value < parent
    decreases parent, 0, |members|
  {
    if members == [] then ""
    else
      assert members[0] in members;
      assert forall m :: m in members[1..] ==> m in members;
      var first := Quote(members[0].key) + ":" + Stringify(members[0].value);
      if |members| == 1 then first else first + "," + StringifyMembers(members[1..], parent)
  }
}

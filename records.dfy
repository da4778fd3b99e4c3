/** The data the plugin moves around: JavaScript values as they come out of a
    JSON response, Interfolio users, sections and activities. */
module Records {

  datatype Option<T> = None | Some(value: T)

  /** The safe integers of JavaScript, |n| <= 2^53 - 1: each is a number exactly,
      and its template-literal text is its plain decimal digits. */
  type JsInt = n: int | -0x1F_FFFF_FFFF_FFFF <= n <= 0x1F_FFFF_FFFF_FFFF

  /** The JavaScript values a JSON field can hold, objects and arrays aside. */
  datatype JsValue = Undefined | Null | Bool(b: bool) | Num(n: JsInt) | Str(s: string)

  /** JavaScript truthiness: false, 0, "" and the two empty values are falsy. */
  predicate Truthy(v: JsValue) {
    match v
    case Undefined => false
    case Null => false
    case Bool(b) => b
    case Num(n) => n != 0
    case Str(s) => s != ""
  }

  /** A single decimal digit. */
  function Digit(d: nat): (c: char)
    requires d < 10
    ensures '0' <= c <= '9'
  {
    ['0', '1', '2', '3', '4', '5', '6', '7', '8', '9'][d]
  }

  /** Decimal digits of a natural number, most significant first, no leading zero. */
  function NatToDecimal(n: nat): (r: string)
    ensures |r| > 0 && forall i :: 0 <= i < |r| ==> '0' <= r[i] <= '9'
    ensures |r| > 1 ==> r[0] != '0'
    decreases n
  {
    if n < 10 then [Digit(n)] else NatToDecimal(n / 10) + [Digit(n % 10)]
  }

  /** The value of a decimal digit string, for stating that NatToDecimal is exact. */
  function DecimalValue(s: string): nat
    requires forall i :: 0 <= i < |s| ==> '0' <= s[i] <= '9'
  {
    if s == [] then 0 else DecimalValue(s[..|s| - 1]) * 10 + (s[|s| - 1] as int - '0' as int)
  }

  lemma {:induction false} DecimalRoundTrip(n: nat)
    ensures DecimalValue(NatToDecimal(n)) == n
    decreases n
  {
    if n >= 10 {
      DecimalRoundTrip(n / 10);
      var r := NatToDecimal(n);
      assert r[..|r| - 1] == NatToDecimal(n / 10);
    }
  }

  /** String conversion of a template literal `${v}`. */
  function ToJsString(v: JsValue): (r: string)
    ensures v.Str? ==> r == v.s
  {
    match v
    case Undefined => "undefined"
    case Null => "null"
    case Bool(b) => if b then "true" else "false"
    case Num(n) => if n < 0 then "-" + NatToDecimal(-n) else NatToDecimal(n)
    case Str(s) => s
  }

  /** One own property of a JSON object, in the object's enumeration order. */
  datatype Field = Field(key: string, value: JsValue)

  /** An activity: its identifier and its field map (as ordered properties). */
  datatype Activity = Activity(activityid: JsValue, fields: seq<Field>)

  /** One entry of a user's activity data: a section (by name) and its activities. */
  datatype SectionData = SectionData(name: string, activities: seq<Activity>)

  /** An Interfolio user as the REST routes pass it on. */
  datatype User = User(userid: string, email: string, firstname: string, lastname: string)

  /** `i` is the first position whose field has this key. */
  predicate FirstKeyAt(fields: seq<Field>, key: string, i: int) {
    0 <= i < |fields| && fields[i].key == key &&
    forall j :: 0 <= j < i ==> fields[j].key != key
  }

  /** Property lookup `fields[key]`: undefined when no field has the key, and
      otherwise the value of the first field with it (a JSON object has each key
      once, so the first is the only one). */
  function Lookup(fields: seq<Field>, key: string): (r: JsValue)
    ensures (forall i :: 0 <= i < |fields| ==> fields[i].key != key) ==> r == Undefined
    ensures forall i :: FirstKeyAt(fields, key, i) ==> r == fields[i].value
  {
    if fields == [] then Undefined
    else if fields[0].key == key then fields[0].value
    else
      var r := Lookup(fields[1..], key);
      assert forall i :: FirstKeyAt(fields, key, i) ==> r == fields[i].value by {
        forall i | FirstKeyAt(fields, key, i) ensures r == fields[i].value {
          assert i != 0;
          assert FirstKeyAt(fields[1..], key, i - 1);
        }
      }
      r
  }
}

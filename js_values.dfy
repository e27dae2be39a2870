/** The JavaScript values the probe engine handles (its options, the parsed
    JSON body, the response headers) and the language rules it relies on:
    truthiness, conversion to string and number, loose equality `==` and
    property access `v[key]`. */
module JsValues {
  import opened Wrappers
  import N = JsNumbers

  /** A JavaScript value. `Arr`, `Obj` and `RegExp` are objects; `Obj` holds
      the own enumerable properties of a plain object. */
  datatype JsValue =
    | Undefined
    | Null
    | Bool(b: bool)
    | Num(n: N.Number)
    | Str(s: string)
    | Arr(items: seq<JsValue>)
    | Obj(fields: map<string, JsValue>)
    | RegExp(source: string, flags: string)

  /** A thrown JavaScript error, by constructor and message. */
  datatype JsError = Error(message: string) | TypeError(message: string) | SyntaxError(message: string)

  function Int(i: int): JsValue {
    Num(N.FromInt(i))
  }

  predicate IsObject(v: JsValue) {
    v.Arr? || v.Obj? || v.RegExp?
  }

  /** `v == null`: undefined or null. */
  predicate IsNullish(v: JsValue) {
    v.Undefined? || v.Null?
  }

  /** `!!v` */
  predicate Truthy(v: JsValue)
    ensures IsNullish(v) ==> !Truthy(v)
    ensures IsObject(v) ==> Truthy(v)
  {
    match v
    case Undefined => false
    case Null => false
    case Bool(b) => b
    case Num(n) => N.Truthy(n)
    case Str(s) => s != ""
    case _ => true
  }

  /** The strings joined with "," between them, as `Array.prototype.join`. */
  function JoinComma(parts: seq<string>): string {
    if |parts| == 0 then ""
    else if |parts| == 1 then parts[0]
    else JoinComma(parts[..|parts| - 1]) + "," + parts[|parts| - 1]
  }

  /** `String(v)`, as template literals and property keys use it. An array
      joins its elements with commas, writing undefined and null as empty. */
  function ToString(v: JsValue): (r: string)
    ensures r == "" ==> v.Str? || v.Arr?
  {
    match v
    case Undefined => "undefined"
    case Null => "null"
    case Bool(b) => if b then "true" else "false"
    case Num(n) => N.NumberToString(n)
    case Str(s) => s
    case Arr(items) =>
      JoinComma(seq(|items|, i requires 0 <= i < |items| =>
        if IsNullish(items[i]) then "" else ToString(items[i])))
    case Obj(_) => "[object Object]"
    case RegExp(source, flags) => "/" + source + "/" + flags
  }

  /** `Number(v)`. An object converts through its string form. */
  function ToNumber(v: JsValue): (r: N.Number)
    ensures v.Null? || v.Bool? ==> r == N.Finite(if Truthy(v) then 1 else 0, 0)
    ensures v.Undefined? || v.Obj? ==> r.NaN?
  {
    match v
    case Undefined => N.NaN
    case Null => N.Finite(0, 0)
    case Bool(b) => N.Finite(if b then 1 else 0, 0)
    case Num(n) => n
    case Str(s) => N.StringToNumber(s)
    case Obj(_) => N.LeadingNonNumericIsNaN("[object Object]"); N.StringToNumber("[object Object]")
    case _ => N.StringToNumber(ToString(v))
  }

  /** The global `isNaN(v)`, which converts its argument first. */
  predicate IsNaN(v: JsValue) {
    ToNumber(v).NaN?
  }

  /** An object reduced to a primitive for comparison: its string form. */
  function ToPrimitive(v: JsValue): (p: JsValue)
    ensures !IsObject(p)
  {
    if IsObject(v) then Str(ToString(v)) else v
  }

  /** Loose equality `x == y`. Two objects are equal only when they are the
      same object; every comparison the engine makes is between separately
      allocated objects, so two objects never compare equal here. */
  predicate LooseEquals(x: JsValue, y: JsValue)
    ensures IsObject(x) && IsObject(y) ==> !LooseEquals(x, y)
    ensures IsNullish(x) ==> (LooseEquals(x, y) <==> IsNullish(y))
    ensures x == y && !IsObject(x) && x != Num(N.NaN) ==> LooseEquals(x, y)
  {
    if IsObject(x) && IsObject(y) then false
    else if IsNullish(x) || IsNullish(y) then IsNullish(x) && IsNullish(y)
    else
      var px, py := ToPrimitive(x), ToPrimitive(y);
      if px.Str? && py.Str? then px.s == py.s
      else if px.Bool? && py.Bool? then px.b == py.b
      else N.SameValue(ToNumber(px), ToNumber(py))
  }

  /** Whether reducing `v` to a primitive succeeds. Neither `valueOf` nor
      `toString` of a plain object is its own property unless the object
      says so: an own "toString" key, which from JSON never holds a function,
      hides the inherited method, `valueOf` yields the object itself, and
      the conversion throws a TypeError. An array converts through the
      string forms of its elements other than undefined and null. */
  predicate ConvertsToPrimitive(v: JsValue)
    ensures !IsObject(v) ==> ConvertsToPrimitive(v)
    ensures v.Obj? && "toString" in v.fields ==> !ConvertsToPrimitive(v)
  {
    match v
    case Obj(fields) => "toString" !in fields
    case Arr(items) => forall i :: 0 <= i < |items| ==> IsNullish(items[i]) || ConvertsToPrimitive(items[i])
    case _ => true
  }

  /** `x == y` throws exactly when it has to reduce an object that does not
      convert: one side is an object and the other a primitive other than
      undefined and null. */
  predicate LooseEqualsThrows(x: JsValue, y: JsValue)
    ensures ConvertsToPrimitive(x) && ConvertsToPrimitive(y) ==> !LooseEqualsThrows(x, y)
    ensures LooseEqualsThrows(x, y) ==> !IsNullish(x) && !IsNullish(y) && IsObject(x) != IsObject(y)
  {
    if IsObject(x) && IsObject(y) then false
    else if IsNullish(x) || IsNullish(y) then false
    else !ConvertsToPrimitive(x) || !ConvertsToPrimitive(y)
  }

  /** The element or character at a canonical index key, if in range. */
  function Indexed<T>(s: seq<T>, key: string): Option<T> {
    match N.CanonicalIndex(key)
    case Some(i) => if i < |s| then Some(s[i]) else None
    case None => None
  }

  /** Property access `v[key]`: `None` when it throws, which it does exactly
      when `v` is undefined or null; a missing property reads as undefined.
      Inherited properties (methods of the prototypes) are not modelled. */
  function Get(v: JsValue, key: string): (r: Option<JsValue>)
    ensures r.None? <==> IsNullish(v)
  {
    match v
    case Undefined => None
    case Null => None
    case Str(s) =>
      if key == "length" then Some(Int(|s|))
      else (
        match Indexed(s, key)
        case Some(c) => Some(Str([c]))
        case None => Some(Undefined))
    case Arr(items) =>
      if key == "length" then Some(Int(|items|))
      else (
        match Indexed(items, key)
        case Some(e) => Some(e)
        case None => Some(Undefined))
    case Obj(fields) => Some(if key in fields then fields[key] else Undefined)
    case _ => Some(Undefined)
  }

  /** `v[i]` for a value that is neither undefined nor null. */
  function At(v: JsValue, i: nat): JsValue
    requires !IsNullish(v)
  {
    Get(v, N.NatToString(i)).value
  }

  /** `v.length` for a value that is neither undefined nor null. */
  function Length(v: JsValue): JsValue
    requires !IsNullish(v)
  {
    Get(v, "length").value
  }

  // ---------------------------------------------------------------------------
  // Properties

  /** Indexing an array or a string by position reads its element or
      character, and reads undefined past the end. */
  lemma AtSequence(v: JsValue, i: nat)
    requires v.Arr? || v.Str?
    ensures v.Arr? ==> At(v, i) == if i < |v.items| then v.items[i] else Undefined
    ensures v.Str? ==> At(v, i) == if i < |v.s| then Str([v.s[i]]) else Undefined
  {
    var key := N.NatToString(i);
    N.CanonicalIndexOfNatToString(i);
    assert key != "length" by {
      assert N.IsDigit(key[0]);
    }
  }

  /** The length of an array or string is its number of elements. */
  lemma LengthOfSequence(v: JsValue)
    requires v.Arr? || v.Str?
    ensures Length(v) == Int(if v.Arr? then |v.items| else |v.s|)
  {
  }

  /** A regular expression object has no `length`, and neither do numbers
      and booleans: their `length` reads as undefined, which is falsy. */
  lemma NoLength(v: JsValue)
    requires v.RegExp? || v.Num? || v.Bool?
    ensures Length(v) == Undefined && !Truthy(Length(v))
  {
  }

  /** A number and the string that spells it are loosely equal, as a JSON
      number and a search value typed on the command line are. */
  lemma NumberEqualsItsSpelling(n: N.Number)
    requires !n.NaN?
    ensures LooseEquals(Num(n), Str(N.NumberToString(n)))
  {
    N.NumberToStringRoundTrip(n);
  }

  /** Two strings are loosely equal exactly when they are the same string. */
  lemma LooseEqualsStrings(a: string, b: string)
    ensures LooseEquals(Str(a), Str(b)) <==> a == b
  {
  }

  /** A string that reads as NaN equals no number and no boolean. */
  lemma NaNStringEqualsNoNumber(s: string, v: JsValue)
    requires N.StringToNumber(s).NaN? && (v.Num? || v.Bool?)
    ensures !LooseEquals(Str(s), v)
  {
    var x := Str(s);
    assert ToNumber(x).NaN?;
    assert ToPrimitive(x) == x && ToPrimitive(v) == v;
    N.NaNSameAsNothing(ToNumber(x), ToNumber(v));
  }

  /** Against a primitive, an object compares as its string form. */
  lemma ObjectComparesAsString(x: JsValue, y: JsValue)
    requires IsObject(x) && !IsObject(y)
    ensures LooseEquals(x, y) == LooseEquals(Str(ToString(x)), y)
  {
  }

  /** An object with an own "toString" key makes any comparison with a
      number, string or boolean throw, and an array holding one does too. */
  lemma OwnToStringThrows(fields: map<string, JsValue>, y: JsValue)
    requires "toString" in fields && !IsNullish(y) && !IsObject(y)
    ensures LooseEqualsThrows(Obj(fields), y) && LooseEqualsThrows(y, Obj(fields))
    ensures LooseEqualsThrows(Arr([Obj(fields)]), y)
  {
    assert !ConvertsToPrimitive(Arr([Obj(fields)])) by {
      assert [Obj(fields)][0] == Obj(fields);
    }
  }

  /** undefined is loosely equal to undefined and null only. */
  lemma LooseEqualsUndefined(y: JsValue)
    ensures LooseEquals(Undefined, y) <==> IsNullish(y)
  {
  }

  /** A plain JavaScript object whose properties are updated in place. */
  class JsObject {
    var props: map<string, JsValue>

    constructor (init: map<string, JsValue>)
      ensures props == init
    {
      props := init;
    }

    /** `o[key]`: undefined when the property is absent. */
    function Read(key: string): (v: JsValue)
      reads this
      ensures key in props ==> v == props[key]
      ensures key !in props ==> v == Undefined
    {
      if key in props then props[key] else Undefined
    }

    /** `Object.assign(this, source)`: every own property of `source` is
        copied over, replacing a property of the same name whatever its
        value, undefined included. */
    method AssignFrom(source: JsObject)
      modifies this
      ensures props.Keys == old(props).Keys + old(source.props).Keys
      ensures forall k :: k in old(source.props) ==> props[k] == old(source.props)[k]
      ensures forall k :: k in old(props) && k !in old(source.props) ==> props[k] == old(props)[k]
    {
      props := props + source.props;
    }

    /** `this[key] = v` */
    method Set(key: string, v: JsValue)
      modifies this
      ensures props == old(props)[key := v]
    {
      props := props[key := v];
    }

    /** `delete this[key]` */
    method Delete(key: string)
      modifies this
      ensures props == old(props) - {key}
    {
      props := props - {key};
    }
  }
}

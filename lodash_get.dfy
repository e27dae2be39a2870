/** The path lookup `get(object, path)` of the lodash library, which the
    JSON search applies to the parsed body: a path names one property, or a
    chain of properties separated by dots, and the lookup follows the chain
    until it ends or meets undefined or null. Bracket syntax (`a[0].b`,
    `a["b"]`) is not part of this model. */
module PathLookup {
  import opened Wrappers
  import opened JsValues
  import N = JsNumbers

  /** `s.split(".")`: the pieces of `s` between its dots, in order. */
  function SplitDots(s: string): (parts: seq<string>)
    ensures |parts| >= 1
    ensures forall i :: 0 <= i < |parts| ==> '.' !in parts[i]
    decreases |s|
  {
    match N.IndexOfAny(s, {'.'})
    case None => [s]
    case Some(i) => [s[..i]] + SplitDots(s[i + 1..])
  }

  /** `parts.join(".")` */
  function JoinDots(parts: seq<string>): string
    requires |parts| >= 1
  {
    if |parts| == 1 then parts[0] else parts[0] + "." + JoinDots(parts[1..])
  }

  /** Joining the pieces of a split gives back the string. */
  lemma {:induction false} JoinSplitDots(s: string)
    ensures JoinDots(SplitDots(s)) == s
    decreases |s|
  {
    match N.IndexOfAny(s, {'.'})
    case None =>
    case Some(i) =>
      JoinSplitDots(s[i + 1..]);
      assert s == s[..i] + "." + s[i + 1..];
  }

  /** Splitting a dot-joined sequence of dot-free names gives back the names. */
  lemma {:induction false} SplitJoinDots(parts: seq<string>)
    requires |parts| >= 1
    requires forall i :: 0 <= i < |parts| ==> '.' !in parts[i]
    ensures SplitDots(JoinDots(parts)) == parts
  {
    var s := JoinDots(parts);
    if |parts| == 1 {
      assert N.IndexOfAny(s, {'.'}).None? by {
        assert forall j :: 0 <= j < |s| ==> s[j] != '.';
      }
    } else {
      var rest := JoinDots(parts[1..]);
      assert s == parts[0] + "." + rest;
      var k := |parts[0]|;
      assert N.IndexOfAny(s, {'.'}) == Some(k) by {
        assert s[k] == '.';
        forall j | 0 <= j < k ensures s[j] !in {'.'} {
          assert s[j] == parts[0][j];
        }
        IndexOfAnyFirst(s, {'.'}, k);
      }
      assert s[..k] == parts[0];
      assert s[k + 1..] == rest;
      SplitJoinDots(parts[1..]);
    }
  }

  /** The first index holding a member of `cs` is what IndexOfAny finds. */
  lemma IndexOfAnyFirst(s: string, cs: set<char>, k: nat)
    requires k < |s| && s[k] in cs
    requires forall j :: 0 <= j < k ==> s[j] !in cs
    ensures N.IndexOfAny(s, cs) == Some(k)
  {
  }

  /** Whether `key in Object(v)` holds for an own property of `v`. */
  predicate HasOwn(v: JsValue, key: string) {
    match v
    case Obj(fields) => key in fields
    case Arr(items) => key == "length" || Indexed(items, key).Some?
    case Str(s) => key == "length" || Indexed(s, key).Some?
    case _ => false
  }

  /** The key a path element names: strings as they are, any other value in
      its string form. */
  function ToKey(v: JsValue): (k: string)
    ensures v.Str? ==> k == v.s
  {
    if v.Str? then v.s else ToString(v)
  }

  /** The keys a path stands for. An array lists them; a string is one key
      when it has no dot or names an own property of the object as a whole,
      and is split at its dots otherwise; any other value is one key. */
  function CastPath(path: JsValue, obj: JsValue): (keys: seq<string>)
    ensures path.Arr? ==> |keys| == |path.items|
    ensures !path.Arr? ==> |keys| >= 1
  {
    match path
    case Arr(items) => seq(|items|, i requires 0 <= i < |items| => ToKey(items[i]))
    case Str(s) => if '.' !in s || HasOwn(obj, s) then [s] else SplitDots(s)
    case Obj(_) => SplitDots(ToString(path))
    case RegExp(_, _) => SplitDots(ToString(path))
    case _ => [ToString(path)]
  }

  /** Follows `keys` from `v`: reads undefined once undefined or null is met
      before the keys run out. */
  function Walk(v: JsValue, keys: seq<string>): (r: JsValue)
    ensures keys == [] ==> r == v
    ensures keys != [] && IsNullish(v) ==> r == Undefined
    decreases |keys|
  {
    if keys == [] then v
    else if IsNullish(v) then Undefined
    else Walk(Get(v, keys[0]).value, keys[1..])
  }

  /** `get(obj, path)`: the value at the end of the path, or undefined when
      the path is empty or runs into undefined or null. */
  function LodashGet(obj: JsValue, path: JsValue): (r: JsValue)
    ensures IsNullish(obj) ==> r == Undefined
    ensures path.Arr? && path.items == [] ==> r == Undefined
  {
    var keys := CastPath(path, obj);
    if keys == [] then Undefined else Walk(obj, keys)
  }

  /** An object nested along `keys`, with `leaf` at the innermost level. */
  function Nest(keys: seq<string>, leaf: JsValue): JsValue {
    if keys == [] then leaf else Obj(map[keys[0] := Nest(keys[1..], leaf)])
  }

  /** Following the keys an object was nested along reaches its leaf. */
  lemma {:induction false} WalkNest(keys: seq<string>, leaf: JsValue)
    ensures Walk(Nest(keys, leaf), keys) == leaf
  {
    if keys != [] {
      WalkNest(keys[1..], leaf);
    }
  }

  /** A dot path over dot-free names reaches the value nested along them:
      `get({a: {b: {c: x}}}, "a.b.c") == x`, whenever there are at least two
      names (one name is a plain key). */
  lemma DotPathReachesNested(names: seq<string>, leaf: JsValue)
    requires |names| >= 2
    requires forall i :: 0 <= i < |names| ==> '.' !in names[i]
    ensures LodashGet(Nest(names, leaf), Str(JoinDots(names))) == leaf
  {
    var path := JoinDots(names);
    var obj := Nest(names, leaf);
    assert '.' in path by {
      assert path == names[0] + "." + JoinDots(names[1..]);
      assert path[|names[0]|] == '.';
    }
    assert !HasOwn(obj, path) by {
      assert obj.fields.Keys == {names[0]};
      assert path != names[0] by {
        assert path[|names[0]|] == '.';
      }
    }
    SplitJoinDots(names);
    WalkNest(names, leaf);
  }

  /** A dot-free key reads that own property of an object, or undefined when
      it is absent. */
  lemma PlainKeyLookup(fields: map<string, JsValue>, key: string)
    requires '.' !in key
    ensures LodashGet(Obj(fields), Str(key)) == if key in fields then fields[key] else Undefined
  {
    assert CastPath(Str(key), Obj(fields)) == [key];
    assert Walk(Obj(fields), [key]) == Walk(Get(Obj(fields), key).value, []);
  }

  /** The lookup the test suite's deep search describes: `data.success` in
      `{data: {success: true}}` is `true`. */
  lemma DeepSearchExample()
    ensures LodashGet(Obj(map["data" := Obj(map["success" := Bool(true)])]), Str("data.success")) == Bool(true)
  {
    DotPathReachesNested(["data", "success"], Bool(true));
    assert JoinDots(["data", "success"]) == "data.success";
    assert Nest(["data", "success"], Bool(true)) == Obj(map["data" := Obj(map["success" := Bool(true)])]);
  }
}

/**
 * The hierarchy of configuration data: an ordered list of YAML mappings
 * ("layers") with two lookup strategies, override (the first layer that
 * has the key wins) and merge (array values of every layer are joined in
 * layer order), and the loader that builds the list from templates.
 *
 * Deserialisation into a caller-chosen type is a decoder parameter
 * `Value -> Option<T>` (None: the value does not have the requested shape).
 */
module Hierarchy {
  import opened Wrappers

  /** A YAML value, as far as the lookups are concerned. */
  datatype Value =
    | Null
    | Bool(b: bool)
    | Number(n: int)
    | Str(s: string)
    | Sequence(items: seq<Value>)
    | Mapping(entries: map<string, Value>)

  /** One YAML document of the hierarchy, keyed by string. */
  type Layer = map<string, Value>

  datatype Error =
    | DecodeFailed(key: string)           // the value under `key` does not have the requested shape
    | MissingKey(key: string)             // a directive names a key no layer has
    | MissingEnv(key: string)             // a directive names an unset environment variable
    | BadKind(part: string, kind: string) // a directive `key:kind` with an unknown kind
    | Failed(message: string)             // reported by a collaborator (template rendering, file reading)
    | LoadFailed(path: string, cause: Error)

  type Res<T> = Result<T, Error>

  /**
   * `Data`: the layers in priority order, fixed when the value is built
   * (`Data::new` keeps the order it is given) and never changed.
   */
  datatype Data = Data(layers: seq<Layer>)

  /** The decoder for `T = Value`: every value is accepted as it is. */
  function AsValue(v: Value): Option<Value> {
    Some(v)
  }

  /** The decoder for `Vec<Value>`: only a sequence is accepted. */
  function AsSequence(v: Value): Option<seq<Value>> {
    if v.Sequence? then Some(v.items) else None
  }

  /** The decoder for `String`. */
  function AsString(v: Value): Option<string> {
    if v.Str? then Some(v.s) else None
  }

  /** The decoder for `Vec<String>`: a sequence of strings. */
  function AsStrings(v: Value): Option<seq<string>> {
    if v.Sequence? && forall i | 0 <= i < |v.items| :: v.items[i].Str? then
      Some(seq(|v.items|, i requires 0 <= i < |v.items| && v.items[i].Str? => v.items[i].s))
    else None
  }

  // ----- override lookup: Data::load -----

  /** The value of the first layer that has `key`. */
  function FirstValue(layers: seq<Layer>, key: string): (r: Option<Value>)
    ensures r.None? <==> forall i | 0 <= i < |layers| :: key !in layers[i]
    ensures forall i | 0 <= i < |layers| && key in layers[i] && (forall j | 0 <= j < i :: key !in layers[j]) ::
      r == Some(layers[i][key])
  {
    if layers == [] then None
    else if key in layers[0] then Some(layers[0][key])
    else
      var r := FirstValue(layers[1..], key);
      assert forall i | 1 <= i < |layers| :: layers[i] == layers[1..][i - 1];
      r
  }

  /** An earlier layer hides every later one for the keys it has. */
  lemma {:induction false} FirstValueAppend(a: seq<Layer>, b: seq<Layer>, key: string)
    ensures FirstValue(a + b, key) == if FirstValue(a, key).Some? then FirstValue(a, key) else FirstValue(b, key)
  {
    if a == [] {
      assert a + b == b;
    } else {
      assert (a + b)[0] == a[0];
      assert (a + b)[1..] == a[1..] + b;
      FirstValueAppend(a[1..], b, key);
    }
  }

  /**
   * `load::<T>(key)`: absent when no layer has the key; otherwise the
   * decoded value of the first layer that has it, or a decoding error.
   */
  function Lookup<T>(data: Data, key: string, decode: Value -> Option<T>): (r: Res<Option<T>>)
    ensures r == Ok(None) <==> forall i | 0 <= i < |data.layers| :: key !in data.layers[i]
    ensures forall i | 0 <= i < |data.layers| && key in data.layers[i] && (forall j | 0 <= j < i :: key !in data.layers[j]) ::
      r == match decode(data.layers[i][key]) case None => Err(DecodeFailed(key)) case Some(x) => Ok(Some(x))
  {
    match FirstValue(data.layers, key)
    case None => Ok(None)
    case Some(v) =>
      match decode(v)
      case None => Err(DecodeFailed(key))
      case Some(x) => Ok(Some(x))
  }

  /** `Data::load`: scans the layers in order and returns at the first one that has the key. */
  method Load<T>(data: Data, key: string, decode: Value -> Option<T>) returns (r: Res<Option<T>>)
    ensures r == Lookup(data, key, decode)
  {
    var i := 0;
    while i < |data.layers|
      invariant 0 <= i <= |data.layers|
      invariant forall j | 0 <= j < i :: key !in data.layers[j]
    {
      var m := data.layers[i];
      if key in m {
        match decode(m[key]) {
          case None => return Err(DecodeFailed(key));
          case Some(x) => return Ok(Some(x));
        }
      }
      i := i + 1;
    }
    return Ok(None);
  }

  /** `Data::load_or_default`: `load` with absence replaced by `default`. */
  function LoadOrDefault<T>(data: Data, key: string, decode: Value -> Option<T>, default: T): (r: Res<T>)
    ensures (forall i | 0 <= i < |data.layers| :: key !in data.layers[i]) ==> r == Ok(default)
    ensures Lookup(data, key, decode).Ok? && Lookup(data, key, decode).value.Some? ==>
      r == Ok(Lookup(data, key, decode).value.value)
    ensures Lookup(data, key, decode).Err? ==> r == Err(DecodeFailed(key))
  {
    match Lookup(data, key, decode)
    case Err(e) => Err(e)
    case Ok(None) => Ok(default)
    case Ok(Some(x)) => Ok(x)
  }

  // ----- merge lookup: Data::load_array -----

  /** What one layer adds to `load_array(key)`: nothing, its decoded sequence, or an error. */
  function Contribution<T>(layer: Layer, key: string, decode: Value -> Option<seq<T>>): Res<seq<T>>
  {
    if key !in layer then Ok([])
    else
      match decode(layer[key])
      case None => Err(DecodeFailed(key))
      case Some(xs) => Ok(xs)
  }

  /** The sequences of every layer that has `key`, concatenated in layer order. */
  function Merged<T>(layers: seq<Layer>, key: string, decode: Value -> Option<seq<T>>): Res<seq<T>>
  {
    ConcatMap(layers, l => Contribution(l, key, decode))
  }

  /**
   * Merging is in layer order: the merge of `a + b` is the merge of `a`
   * followed by the merge of `b`, and a failure in `a` is the one reported.
   */
  lemma MergedAppend<T>(a: seq<Layer>, b: seq<Layer>, key: string, decode: Value -> Option<seq<T>>)
    ensures Merged(a + b, key, decode) == Concat(Merged(a, key, decode), Merged(b, key, decode))
  {
    ConcatMapAppend(a, b, l => Contribution(l, key, decode));
  }

  /**
   * `load_array` fails exactly when some layer's value for `key` is not a
   * sequence of the requested shape, and is empty when no layer has `key`.
   */
  lemma MergedOk<T>(layers: seq<Layer>, key: string, decode: Value -> Option<seq<T>>)
    ensures Merged(layers, key, decode).Ok? <==>
      forall i | 0 <= i < |layers| && key in layers[i] :: decode(layers[i][key]).Some?
    ensures (forall i | 0 <= i < |layers| :: key !in layers[i]) ==> Merged(layers, key, decode) == Ok([])
  {
    var f := l => Contribution(l, key, decode);
    ConcatMapOk(layers, f);
    assert forall i | 0 <= i < |layers| :: f(layers[i]).Ok? <==> (key in layers[i] ==> decode(layers[i][key]).Some?);
    if forall i | 0 <= i < |layers| :: key !in layers[i] {
      NothingToMerge(layers, key, decode);
    }
  }

  lemma {:induction false} NothingToMerge<T>(layers: seq<Layer>, key: string, decode: Value -> Option<seq<T>>)
    requires forall i | 0 <= i < |layers| :: key !in layers[i]
    ensures Merged(layers, key, decode) == Ok([])
  {
    if layers != [] {
      assert forall i | 0 <= i < |layers| - 1 :: layers[1..][i] == layers[i + 1];
      NothingToMerge(layers[1..], key, decode);
      assert Contribution(layers[0], key, decode) == Ok([]);
      ConcatEmpty(Merged(layers[1..], key, decode));
    }
  }

  /** `Data::load_array`: extends `out` with the sequence of every layer that has the key. */
  method LoadArray<T>(data: Data, key: string, decode: Value -> Option<seq<T>>) returns (r: Res<seq<T>>)
    ensures r == Merged(data.layers, key, decode)
  {
    var out: seq<T> := [];
    ConcatEmpty(Merged(data.layers, key, decode));
    assert data.layers[0..] == data.layers;
    for i := 0 to |data.layers|
      invariant Merged(data.layers, key, decode) == Concat(Ok(out), Merged(data.layers[i..], key, decode))
    {
      var m := data.layers[i];
      ConcatMapStep(data.layers, l => Contribution(l, key, decode), i);
      ConcatAssoc(Ok(out), Contribution(m, key, decode), Merged(data.layers[i + 1..], key, decode));
      if key in m {
        match decode(m[key]) {
          case None => return Err(DecodeFailed(key));
          case Some(xs) => out := out + xs;
        }
      } else {
        assert out + [] == out;
      }
    }
    assert data.layers[|data.layers|..] == [];
    assert out + [] == out;
    return Ok(out);
  }

  /** The first layer of the unit test in src/hierarchy.rs. */
  function ExampleLayer1(): Layer {
    map["foo" := Str("foo value"), "seq" := Sequence([Str("item1")])]
  }

  /** The second layer of the unit test in src/hierarchy.rs. */
  function ExampleLayer2(): Layer {
    map["bar" := Str("bar value"), "seq" := Sequence([Str("item2")])]
  }

  /**
   * The unit test's lookups: `foo` comes from the first layer, `bar` from
   * the second, and `missing`, in neither, defaults to the empty string.
   */
  lemma LookupExample()
    ensures var data := Data([ExampleLayer1(), ExampleLayer2()]);
      && Lookup(data, "foo", AsString) == Ok(Some("foo value"))
      && Lookup(data, "bar", AsString) == Ok(Some("bar value"))
      && LoadOrDefault(data, "missing", AsString, "") == Ok("")
  {
    var data := Data([ExampleLayer1(), ExampleLayer2()]);
    assert "foo" in data.layers[0] && "foo" !in data.layers[1];
    assert "bar" !in data.layers[0] && "bar" in data.layers[1];
    assert "missing" !in data.layers[0] && "missing" !in data.layers[1];
  }

  /** The same layers: `seq` merges the sequences of both layers, in layer order. */
  lemma MergeExample()
    ensures Merged([ExampleLayer1(), ExampleLayer2()], "seq", AsStrings) == Ok(["item1", "item2"])
  {
    var layers := [ExampleLayer1(), ExampleLayer2()];
    var f := l => Contribution(l, "seq", AsStrings);
    var one := AsStrings(Sequence([Str("item1")]));
    assert one.Some? && |one.value| == 1 && one.value[0] == "item1";
    assert one.value == [one.value[0]];
    var two := AsStrings(Sequence([Str("item2")]));
    assert two.Some? && |two.value| == 1 && two.value[0] == "item2";
    assert two.value == [two.value[0]];
    assert layers[1..][1..] == [];
    assert f(layers[0]) == Ok(["item1"]);
    assert f(layers[1]) == Ok(["item2"]);
    assert ConcatMap(layers[1..][1..], f) == Ok([]);
    ConcatEmpty(ConcatMap(layers[1..][1..], f));
    assert ["item2"] + [] == ["item2"];
    assert ConcatMap(layers[1..], f) == Concat(f(layers[1]), ConcatMap(layers[1..][1..], f)) == Ok(["item2"]);
    assert ["item1"] + ["item2"] == ["item1", "item2"];
    assert ConcatMap(layers, f) == Concat(f(layers[0]), ConcatMap(layers[1..], f));
  }


  // ----- the loader: hierarchy::load -----

  /**
   * What one template adds to the hierarchy: nothing when it renders to no
   * path, else the mapping read from that path; a rendering error as it is,
   * a reading error wrapped with the path.
   */
  function Stage<Tpl>(t: Tpl, render: Tpl -> Res<Option<string>>, loadMapping: string -> Res<Layer>): Res<seq<Layer>>
  {
    match render(t)
    case Err(e) => Err(e)
    case Ok(None) => Ok([])
    case Ok(Some(path)) =>
      match loadMapping(path)
      case Err(e) => Err(LoadFailed(path, e))
      case Ok(m) => Ok([m])
  }

  /** The layers built from the templates, in template order. */
  function Stages<Tpl>(templates: seq<Tpl>, render: Tpl -> Res<Option<string>>, loadMapping: string -> Res<Layer>): Res<seq<Layer>>
  {
    ConcatMap(templates, t => Stage(t, render, loadMapping))
  }

  /**
   * The loader keeps template order, skips templates that render to no
   * path, succeeds only when every template renders and every rendered path
   * loads, and otherwise reports the first failure and no layers at all.
   */
  lemma StagesSpec<Tpl>(templates: seq<Tpl>, render: Tpl -> Res<Option<string>>, loadMapping: string -> Res<Layer>)
    ensures Stages(templates, render, loadMapping).Ok? <==>
      forall i | 0 <= i < |templates| ::
        render(templates[i]).Ok? && (render(templates[i]).value.Some? ==> loadMapping(render(templates[i]).value.value).Ok?)
    ensures forall i | 0 <= i < |templates| && Stage(templates[i], render, loadMapping).Err? &&
        (forall j | 0 <= j < i :: Stage(templates[j], render, loadMapping).Ok?) ::
      Stages(templates, render, loadMapping) == Stage(templates[i], render, loadMapping)
    ensures forall a, b | templates == a + b ::
      Stages(templates, render, loadMapping) == Concat(Stages(a, render, loadMapping), Stages(b, render, loadMapping))
  {
    var f := t => Stage(t, render, loadMapping);
    ConcatMapOk(templates, f);
    forall i | 0 <= i < |templates| && f(templates[i]).Err? && (forall j | 0 <= j < i :: f(templates[j]).Ok?)
      ensures ConcatMap(templates, f) == f(templates[i])
    {
      ConcatMapFirstError(templates, f, i);
    }
    forall a, b | templates == a + b
      ensures ConcatMap(templates, f) == Concat(ConcatMap(a, f), ConcatMap(b, f))
    {
      ConcatMapAppend(a, b, f);
    }
  }

  /** A template that renders to no path adds no layer. */
  lemma SkippedStage<Tpl>(t: Tpl, render: Tpl -> Res<Option<string>>, loadMapping: string -> Res<Layer>)
    requires render(t) == Ok(None)
    ensures Stages([t], render, loadMapping) == Ok([])
  {
    assert [t][1..] == [];
    ConcatEmpty(Stages([t][1..], render, loadMapping));
  }

  /** `hierarchy::load`: renders each template, skips the pathless ones and pushes each loaded mapping. */
  method LoadHierarchy<Tpl>(templates: seq<Tpl>, render: Tpl -> Res<Option<string>>, loadMapping: string -> Res<Layer>)
    returns (r: Res<Data>)
    ensures r.Ok? <==> Stages(templates, render, loadMapping).Ok?
    ensures r.Ok? ==> r.value == Data(Stages(templates, render, loadMapping).value)
    ensures r.Err? ==> r.error == Stages(templates, render, loadMapping).error
  {
    var stages: seq<Layer> := [];
    ConcatEmpty(Stages(templates, render, loadMapping));
    assert templates[0..] == templates;
    for i := 0 to |templates|
      invariant Stages(templates, render, loadMapping) == Concat(Ok(stages), Stages(templates[i..], render, loadMapping))
    {
      ConcatMapStep(templates, t => Stage(t, render, loadMapping), i);
      ConcatAssoc(Ok(stages), Stage(templates[i], render, loadMapping), Stages(templates[i + 1..], render, loadMapping));
      var path :- render(templates[i]);
      if path.None? {
        assert stages + [] == stages;
        continue;
      }
      var m := loadMapping(path.value);
      if m.Err? {
        return Err(LoadFailed(path.value, m.error));
      }
      stages := stages + [m.value];
    }
    assert templates[|templates|..] == [];
    assert stages + [] == stages;
    return Ok(Data(stages));
  }
}

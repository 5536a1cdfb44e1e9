/**
 * The inline directive language of `Data::load_from_spec`: a line such as
 *
 *     # quickcfg: name, packages:array, HOME:env
 *
 * among the first lines of a file names the hierarchy data the file needs.
 * Each entry `key` is a plain lookup (the key must exist), `key:array` a
 * merged array lookup and `key:env` an environment variable; the result is
 * one mapping with an entry per key.
 */
module Directives {
  import opened Wrappers
  import opened Text
  import opened Hierarchy

  /** The token that opens a directive line. */
  const Header: string := "quickcfg:"

  /** How many lines from the top of the text are searched for the header. */
  const ScanLines: nat := 5

  /** One comma-separated entry, `key` or `key:kind`. */
  datatype Directive = Directive(key: string, kind: Option<string>)

  /** The text an entry is written as. */
  function Unparse(d: Directive): string {
    match d.kind
    case None => d.key
    case Some(k) => d.key + [':'] + k
  }

  /**
   * `part.splitn(2, ":")`: the key runs up to the first colon; everything
   * after it, further colons included, is the kind.
   */
  function ParseDirective(part: string): (d: Directive)
    ensures ':' !in d.key
    ensures Unparse(d) == part
  {
    FindChar(part, ':');
    match Find(part, [':'])
    case None => Directive(part, None)
    case Some(j) => Directive(part[..j], Some(part[j + 1..]))
  }

  /** Parsing undoes writing, for every entry whose key has no colon. */
  lemma ParseUnparse(d: Directive)
    requires ':' !in d.key
    ensures ParseDirective(Unparse(d)) == d
  {
    var s := Unparse(d);
    FindChar(s, ':');
    match d.kind
    case None =>
    case Some(k) =>
      assert s[|d.key|] == ':' && s[..|d.key|] == d.key;
      var j := Find(s, [':']).value;
      assert j == |d.key|;
      assert s[j + 1..] == k;
  }

  /** `a:b:c` has key `a` and kind `b:c`, which is no known kind. */
  lemma SecondColonBelongsToKind(data: Data, env: map<string, string>)
    ensures ParseDirective("a:b:c") == Directive("a", Some("b:c"))
    ensures Resolve(data, env, ParseDirective("a:b:c")) == Err(BadKind("a:b:c", "b:c"))
  {
    var d := Directive("a", Some("b:c"));
    assert Unparse(d) == "a:b:c";
    ParseUnparse(d);
    assert "b:c" != "array" && "b:c" != "env";
  }

  // ----- resolving entries -----

  /** The value one entry contributes, by its kind (src/hierarchy.rs:91-109). */
  function Resolve(data: Data, env: map<string, string>, d: Directive): Res<Value>
  {
    match d.kind
    case None =>
      (match Lookup(data, d.key, AsValue)
       case Err(e) => Err(e)
       case Ok(None) => Err(MissingKey(d.key))
       case Ok(Some(v)) => Ok(v))
    case Some(kind) =>
      if kind == "array" then
        (match Merged(data.layers, d.key, AsSequence)
         case Err(e) => Err(e)
         case Ok(items) => Ok(Sequence(items)))
      else if kind == "env" then
        if d.key in env then Ok(Str(env[d.key])) else Err(MissingEnv(d.key))
      else Err(BadKind(Unparse(d), kind))
  }

  /**
   * A plain entry takes the value of the first layer that has the key and
   * fails with a missing-key error exactly when no layer has it.
   */
  lemma ResolvePlain(data: Data, env: map<string, string>, d: Directive)
    requires d.kind.None?
    ensures Resolve(data, env, d) == Err(MissingKey(d.key)) <==> forall i | 0 <= i < |data.layers| :: d.key !in data.layers[i]
    ensures forall i | 0 <= i < |data.layers| && d.key in data.layers[i] && (forall j | 0 <= j < i :: d.key !in data.layers[j]) ::
      Resolve(data, env, d) == Ok(data.layers[i][d.key])
  {
    var r := FirstValue(data.layers, d.key);
    assert Lookup(data, d.key, AsValue) == if r.None? then Ok(None) else Ok(Some(r.value));
  }

  /**
   * An `array` entry fails exactly when some layer's value for the key is
   * not a sequence, and is the empty sequence when no layer has the key.
   */
  lemma ResolveArray(data: Data, env: map<string, string>, d: Directive)
    requires d.kind == Some("array")
    ensures Resolve(data, env, d).Ok? <==>
      forall i | 0 <= i < |data.layers| && d.key in data.layers[i] :: data.layers[i][d.key].Sequence?
    ensures (forall i | 0 <= i < |data.layers| :: d.key !in data.layers[i]) ==> Resolve(data, env, d) == Ok(Sequence([]))
  {
    MergedOk(data.layers, d.key, AsSequence);
  }

  /** An `env` entry needs the variable to be set; any other kind is an error naming the part and the kind. */
  lemma ResolveOtherKinds(data: Data, env: map<string, string>, d: Directive)
    requires d.kind.Some? && d.kind.value != "array"
    ensures d.kind.value == "env" ==> (Resolve(data, env, d).Ok? <==> d.key in env)
    ensures d.kind.value == "env" && d.key in env ==> Resolve(data, env, d) == Ok(Str(env[d.key]))
    ensures d.kind.value != "env" ==> Resolve(data, env, d) == Err(BadKind(Unparse(d), d.kind.value))
  {
  }

  /** Resolves the entries in order into `acc`, a later entry overwriting an earlier one with the same key. */
  function ResolveAll(data: Data, env: map<string, string>, ds: seq<Directive>, acc: map<string, Value>): Res<map<string, Value>>
  {
    if ds == [] then Ok(acc)
    else
      match Resolve(data, env, ds[0])
      case Err(e) => Err(e)
      case Ok(v) => ResolveAll(data, env, ds[1..], acc[ds[0].key := v])
  }

  /** The entries succeed together exactly when each of them resolves. */
  lemma {:induction false} ResolveAllOk(data: Data, env: map<string, string>, ds: seq<Directive>, acc: map<string, Value>)
    ensures ResolveAll(data, env, ds, acc).Ok? <==> forall i | 0 <= i < |ds| :: Resolve(data, env, ds[i]).Ok?
  {
    if ds != [] {
      var rest := ds[1..];
      assert forall i | 0 <= i < |rest| :: rest[i] == ds[i + 1];
      match Resolve(data, env, ds[0])
      case Err(e) =>
      case Ok(v) =>
        ResolveAllOk(data, env, rest, acc[ds[0].key := v]);
        if forall i | 0 <= i < |rest| :: Resolve(data, env, rest[i]).Ok? {
          forall i | 0 <= i < |ds| ensures Resolve(data, env, ds[i]).Ok? {
            if i > 0 {
              assert ds[i] == rest[i - 1];
            }
          }
        }
    }
  }

  /** When entry `i` is the first that fails, its error is the one reported. */
  lemma {:induction false} ResolveAllFirstError(data: Data, env: map<string, string>, ds: seq<Directive>, acc: map<string, Value>, i: nat)
    requires i < |ds| && Resolve(data, env, ds[i]).Err?
    requires forall j | 0 <= j < i :: Resolve(data, env, ds[j]).Ok?
    ensures ResolveAll(data, env, ds, acc) == Err(Resolve(data, env, ds[i]).error)
  {
    if i > 0 {
      var rest := ds[1..];
      var v := Resolve(data, env, ds[0]).value;
      assert rest[i - 1] == ds[i];
      forall j | 0 <= j < i - 1 ensures Resolve(data, env, rest[j]).Ok? {
        assert rest[j] == ds[j + 1];
      }
      ResolveAllFirstError(data, env, rest, acc[ds[0].key := v], i - 1);
    }
  }

  /** On success the mapping's keys are those of `acc` and of the entries. */
  lemma {:induction false} ResolveAllKeys(data: Data, env: map<string, string>, ds: seq<Directive>, acc: map<string, Value>)
    requires ResolveAll(data, env, ds, acc).Ok?
    ensures ResolveAll(data, env, ds, acc).value.Keys == acc.Keys + set i | 0 <= i < |ds| :: ds[i].key
  {
    if ds != [] {
      var v := Resolve(data, env, ds[0]).value;
      var rest := ds[1..];
      ResolveAllKeys(data, env, rest, acc[ds[0].key := v]);
      KeysCons(ds);
    }
  }

  /** The keys named by a list of entries: the first entry's key and those of the rest. */
  lemma KeysCons(ds: seq<Directive>)
    requires ds != []
    ensures (set i | 0 <= i < |ds| :: ds[i].key) == {ds[0].key} + set i | 0 <= i < |ds[1..]| :: ds[1..][i].key
  {
    var rest := ds[1..];
    forall i | 1 <= i < |ds|
      ensures ds[i].key in set i | 0 <= i < |rest| :: rest[i].key
    {
      assert rest[i - 1] == ds[i];
    }
    forall i | 0 <= i < |rest|
      ensures rest[i].key in set i | 0 <= i < |ds| :: ds[i].key
    {
      assert rest[i] == ds[i + 1];
    }
  }

  /** On success each key holds the value of the last entry with that key. */
  lemma {:induction false} ResolveAllLastWins(data: Data, env: map<string, string>, ds: seq<Directive>, acc: map<string, Value>, i: nat)
    requires ResolveAll(data, env, ds, acc).Ok?
    requires i < |ds| && forall j | i < j < |ds| :: ds[j].key != ds[i].key
    ensures ds[i].key in ResolveAll(data, env, ds, acc).value
    ensures Resolve(data, env, ds[i]) == Ok(ResolveAll(data, env, ds, acc).value[ds[i].key])
  {
    var v := Resolve(data, env, ds[0]).value;
    var rest := ds[1..];
    if i > 0 {
      assert rest[i - 1] == ds[i];
      forall j | i - 1 < j < |rest| ensures rest[j].key != rest[i - 1].key {
        assert rest[j] == ds[j + 1];
      }
      ResolveAllLastWins(data, env, rest, acc[ds[0].key := v], i - 1);
    } else {
      forall j | 0 <= j < |rest| ensures rest[j].key != ds[0].key {
        assert rest[j] == ds[j + 1];
      }
      ResolveAllKept(data, env, rest, acc[ds[0].key := v], ds[0].key);
    }
  }

  /** On success a key of `acc` that no entry names keeps its value. */
  lemma {:induction false} ResolveAllKept(data: Data, env: map<string, string>, ds: seq<Directive>, acc: map<string, Value>, k: string)
    requires ResolveAll(data, env, ds, acc).Ok?
    requires k in acc && forall i | 0 <= i < |ds| :: ds[i].key != k
    ensures k in ResolveAll(data, env, ds, acc).value && ResolveAll(data, env, ds, acc).value[k] == acc[k]
  {
    if ds != [] {
      var v := Resolve(data, env, ds[0]).value;
      var rest := ds[1..];
      forall i | 0 <= i < |rest| ensures rest[i].key != k {
        assert rest[i] == ds[i + 1];
      }
      ResolveAllKept(data, env, rest, acc[ds[0].key := v], k);
    }
  }

  // ----- reading the directive line -----

  /** What one comma-separated part contributes: nothing when it is blank once trimmed. */
  function EntryOf(part: string): seq<Directive>
  {
    var p := Trim(part);
    if p == [] then [] else [ParseDirective(p)]
  }

  /** The entries of the comma-separated parts: each part trimmed, blank parts skipped. */
  function Entries(parts: seq<string>): (ds: seq<Directive>)
    ensures |ds| <= |parts|
    ensures forall i | 0 <= i < |parts| && Trim(parts[i]) != [] :: ParseDirective(Trim(parts[i])) in ds
  {
    if parts == [] then []
    else
      var rest := Entries(parts[1..]);
      assert forall i | 1 <= i < |parts| :: parts[i] == parts[1..][i - 1];
      EntryOf(parts[0]) + rest
  }

  /** A part on its own: nothing when it is blank after trimming, otherwise its parsed entry. */
  lemma EntriesOne(p: string)
    ensures Entries([p]) == if Trim(p) == [] then [] else [ParseDirective(Trim(p))]
  {
    assert [p][1..] == [];
  }

  /** The entries of consecutive parts, in the order of the parts. */
  lemma {:induction false} EntriesAppend(a: seq<string>, b: seq<string>)
    ensures Entries(a + b) == Entries(a) + Entries(b)
  {
    if a == [] {
      assert a + b == b;
    } else {
      assert (a + b)[0] == a[0] && (a + b)[1..] == a[1..] + b;
      EntriesAppend(a[1..], b);
    }
  }

  lemma EntriesStep(parts: seq<string>, k: nat)
    requires k < |parts|
    ensures Entries(parts[k..]) ==
      (if Trim(parts[k]) == [] then [] else [ParseDirective(Trim(parts[k]))]) + Entries(parts[k + 1..])
  {
    assert parts[k..][1..] == parts[k + 1..];
  }

  predicate HasHeader(line: string) {
    Find(line, Header).Some?
  }

  /** The trimmed rest of a line after its first header token. */
  function AfterHeader(line: string): string
    requires HasHeader(line)
  {
    Trim(line[Find(line, Header).value + |Header|..])
  }

  /** The directive text of the first line that has the header; later lines are ignored. */
  function SpecLine(lines: seq<string>): (r: Option<string>)
    ensures r.None? <==> forall i | 0 <= i < |lines| :: !HasHeader(lines[i])
    ensures forall i | 0 <= i < |lines| && HasHeader(lines[i]) && (forall j | 0 <= j < i :: !HasHeader(lines[j])) ::
      r == Some(AfterHeader(lines[i]))
  {
    if lines == [] then None
    else if HasHeader(lines[0]) then Some(AfterHeader(lines[0]))
    else
      var r := SpecLine(lines[1..]);
      assert forall i | 1 <= i < |lines| :: lines[i] == lines[1..][i - 1];
      r
  }

  /** The scan from line `i` on: a line with the header ends it, any other line is passed over. */
  lemma SpecLineStep(lines: seq<string>, i: nat)
    requires i < |lines|
    ensures SpecLine(lines[i..]) == if HasHeader(lines[i]) then Some(AfterHeader(lines[i])) else SpecLine(lines[i + 1..])
  {
    assert lines[i..][0] == lines[i] && lines[i..][1..] == lines[i + 1..];
  }

  /** `content.split("\n").take(5)`. */
  function Window(content: string): (w: seq<string>)
    ensures |w| <= ScanLines && |w| <= |Split(content, '\n')|
    ensures w == Split(content, '\n')[..|w|]
    ensures |w| < ScanLines ==> w == Split(content, '\n')
  {
    var lines := Split(content, '\n');
    if |lines| <= ScanLines then lines else lines[..ScanLines]
  }

  /** What `load_from_spec` computes. */
  function FromSpec(data: Data, env: map<string, string>, content: string): Res<map<string, Value>>
  {
    match SpecLine(Window(content))
    case None => Ok(map[])
    case Some(spec) => ResolveAll(data, env, Entries(Split(spec, ',')), map[])
  }

  /** Without a header in the first five lines the result is the empty mapping. */
  lemma NoHeaderNoData(data: Data, env: map<string, string>, content: string)
    requires forall i | 0 <= i < |Split(content, '\n')| && i < ScanLines :: !HasHeader(Split(content, '\n')[i])
    ensures FromSpec(data, env, content) == Ok(map[])
  {
    var w := Window(content);
    assert forall i | 0 <= i < |w| :: w[i] == Split(content, '\n')[i];
  }

  /** Whatever follows the fifth line, header lines included, has no effect. */
  lemma LinesAfterWindowIgnored(data: Data, env: map<string, string>, head: seq<string>, tail: string)
    requires |head| == ScanLines
    requires forall i | 0 <= i < |head| :: '\n' !in head[i]
    ensures FromSpec(data, env, Join(head, '\n') + ['\n'] + tail) == FromSpec(data, env, Join(head, '\n'))
  {
    SplitJoinThen(head, '\n', tail);
    SplitJoin(head, '\n');
    assert (head + Split(tail, '\n'))[..ScanLines] == head;
  }

  /**
   * On success the mapping has one entry per key listed on the directive
   * line, holding the value of the last entry with that key.
   */
  lemma FromSpecEntries(data: Data, env: map<string, string>, content: string)
    requires FromSpec(data, env, content).Ok?
    requires SpecLine(Window(content)).Some?
    ensures var ds := Entries(Split(SpecLine(Window(content)).value, ','));
      && FromSpec(data, env, content).value.Keys == (set i | 0 <= i < |ds| :: ds[i].key)
      && forall i | 0 <= i < |ds| && (forall j | i < j < |ds| :: ds[j].key != ds[i].key) ::
           Resolve(data, env, ds[i]) == Ok(FromSpec(data, env, content).value[ds[i].key])
  {
    var ds := Entries(Split(SpecLine(Window(content)).value, ','));
    ResolveAllKeys(data, env, ds, map[]);
    forall i | 0 <= i < |ds| && (forall j | i < j < |ds| :: ds[j].key != ds[i].key)
      ensures Resolve(data, env, ds[i]) == Ok(FromSpec(data, env, content).value[ds[i].key])
    {
      ResolveAllLastWins(data, env, ds, map[], i);
    }
  }

  /** The value of one entry, by its kind: the `match` on what follows the colon. */
  method ResolveEntry(data: Data, env: map<string, string>, part: string, d: Directive) returns (r: Res<Value>)
    requires d == ParseDirective(part)
    ensures r == Resolve(data, env, d)
  {
    match d.kind {
      case Some(kind) =>
        if kind == "array" {
          var items :- LoadArray(data, d.key, AsSequence);
          return Ok(Sequence(items));
        } else if kind == "env" {
          if d.key !in env {
            return Err(MissingEnv(d.key));
          }
          return Ok(Str(env[d.key]));
        } else {
          return Err(BadKind(part, kind));
        }
      case None =>
        var found :- Load(data, d.key, AsValue);
        if found.None? {
          return Err(MissingKey(d.key));
        }
        return Ok(found.value);
    }
  }

  /**
   * The loop over the comma-separated parts of the directive line: blank
   * parts are skipped, every other part is resolved and inserted into `m`,
   * and the first failure is returned.
   */
  method LoadEntries(data: Data, env: map<string, string>, parts: seq<string>) returns (r: Res<map<string, Value>>)
    ensures r == ResolveAll(data, env, Entries(parts), map[])
  {
    var m: map<string, Value> := map[];
    assert parts[0..] == parts;
    for k := 0 to |parts|
      invariant ResolveAll(data, env, Entries(parts[k..]), m) == ResolveAll(data, env, Entries(parts), map[])
    {
      EntriesStep(parts, k);
      var part := Trim(parts[k]);
      if part == [] {
        assert Entries(parts[k..]) == Entries(parts[k + 1..]);
        continue;
      }
      var d := ParseDirective(part);
      var rest := Entries(parts[k + 1..]);
      assert Entries(parts[k..]) == [d] + rest;
      assert ([d] + rest)[0] == d && ([d] + rest)[1..] == rest;
      var value :- ResolveEntry(data, env, part, d);
      assert ResolveAll(data, env, [d] + rest, m) == ResolveAll(data, env, rest, m[d.key := value]);
      m := m[d.key := value];
    }
    assert parts[|parts|..] == [];
    return Ok(m);
  }

  /**
   * `Data::load_from_spec`: looks for the header in the first five lines;
   * at the first line that has it, resolves the entries after it and stops.
   */
  method LoadFromSpec(data: Data, env: map<string, string>, content: string) returns (r: Res<map<string, Value>>)
    ensures r == FromSpec(data, env, content)
  {
    var lines := Window(content);
    var i := 0;
    while i < |lines|
      invariant 0 <= i <= |lines|
      invariant SpecLine(lines[i..]) == SpecLine(lines)
    {
      SpecLineStep(lines, i);
      var index := Find(lines[i], Header);
      if index.None? {
        i := i + 1;
        continue;
      }
      var spec := Trim(lines[i][index.value + |Header|..]);
      r := LoadEntries(data, env, Split(spec, ','));
      return;
    }
    assert lines[|lines|..] == [];
    return Ok(map[]);
  }
}

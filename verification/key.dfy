/** The canonical config key: a deterministic string serialisation of a
    JSON-like configuration, used as the cache identity of a computation. */
module Key {
  import opened Wrappers
  import opened StringOrder
  import opened KeySort
  import opened PyRepr

  /** A configuration value. A Python dict is the sequence of its items in
      insertion order; its keys may be any value, since only the encoder
      rejects non-string keys. `Float` carries the text of its `repr`, and
      `Unsupported` is any value of another type (None, bytes, a set, ...). */
  datatype Config =
    | Str(s: string)
    | Int(i: int)
    | Bool(b: bool)
    | Float(repr: string)
    | List(items: seq<Config>)
    | Tuple(items: seq<Config>)
    | Dict(entries: seq<(Config, Config)>)
    | Unsupported(typeName: string)

  /** The two exceptions the encoder raises. A dict with a non-string key
      raises `InvalidKey`; a value of an unsupported type raises `InvalidItem`. */
  datatype ConfigError = InvalidKey | InvalidItem

  /** Keys starting with an underscore are left out of the key. */
  predicate IsPrivate(k: string)
  {
    |k| > 0 && k[0] == '_'
  }

  /** A Python dict never holds the same key twice. */
  predicate UniqueKeys(es: seq<(Config, Config)>)
  {
    forall i, j :: 0 <= i < j < |es| ==> es[i].0 != es[j].0
  }

  predicate StrKeys(es: seq<(Config, Config)>)
  {
    forall i :: 0 <= i < |es| ==> es[i].0.Str?
  }

  // ---------------------------------------------------------------------
  // the encoder

  /** The items of a dict whose keys are all strings, keyed by the key text. */
  function Named(es: seq<(Config, Config)>): (r: seq<(string, Config)>)
    requires StrKeys(es)
    ensures |r| == |es|
    ensures forall i :: 0 <= i < |es| ==> r[i] == (es[i].0.s, es[i].1)
  {
    seq(|es|, i requires 0 <= i < |es| => (es[i].0.s, es[i].1))
  }

  /** The items that take part in the key: those whose key is not private. */
  function DropPrivate(s: seq<(string, Config)>): (r: seq<(string, Config)>)
    ensures forall x :: x in r <==> x in s && !IsPrivate(x.0)
    ensures StrictlySorted(s) ==> StrictlySorted(r)
  {
    if |s| == 0 then []
    else
      var rest := DropPrivate(s[1..]);
      assert forall x :: x in s <==> x == s[0] || x in s[1..];
      if IsPrivate(s[0].0) then rest
      else
        assert StrictlySorted(s) ==> AllAbove(s[0].0, rest) by {
          if StrictlySorted(s) {
            forall i | 0 <= i < |rest|
              ensures Less(s[0].0, rest[i].0)
            {
              var j :| 0 <= j < |s[1..]| && s[1..][j] == rest[i];
              assert s[j + 1] == rest[i];
            }
          }
        }
        if StrictlySorted(s) then ConsSorted(s[0], rest); [s[0]] + rest else [s[0]] + rest
  }

  /** The significant items of a dict in the order they are written: sorted by
      key, private keys skipped. */
  function Significant(es: seq<(Config, Config)>): (r: seq<(string, Config)>)
    requires StrKeys(es)
    ensures forall x :: x in r <==> x in Named(es) && !IsPrivate(x.0)
    ensures UniqueKeys(es) ==> StrictlySorted(r)
  {
    var sorted := SortByKey(Named(es));
    assert forall x :: x in sorted <==> x in multiset(Named(es));
    assert UniqueKeys(es) ==> DistinctKeys(Named(es)) by {
      if UniqueKeys(es) {
        forall i, j | 0 <= i < j < |es|
          ensures Named(es)[i].0 != Named(es)[j].0
        {
          assert es[i].0 == Str(Named(es)[i].0) && es[j].0 == Str(Named(es)[j].0);
        }
      }
    }
    DropPrivate(sorted)
  }

  /** Each element is followed by a comma; the first failure wins. */
  function JoinItems(rs: seq<Result<string, ConfigError>>): (r: Result<string, ConfigError>)
    ensures r.Success? <==> forall i :: 0 <= i < |rs| ==> rs[i].Success?
    ensures r.Failure? ==> exists i :: 0 <= i < |rs| && rs[i] == r && forall j :: 0 <= j < i ==> rs[j].Success?
  {
    if |rs| == 0 then Success("")
    else if rs[0].Failure? then Failure(rs[0].error)
    else
      match JoinItems(rs[1..])
      case Success(t) => Success(rs[0].value + "," + t)
      case Failure(e) =>
        assert forall i :: 1 <= i < |rs| ==> rs[i] == rs[1..][i - 1];
        Failure(e)
  }

  function Prefixed(p: string, r: Result<string, ConfigError>): (o: Result<string, ConfigError>)
    ensures o.Success? <==> r.Success?
    ensures o.Failure? ==> o == r
  {
    match r
    case Success(v) => Success(p + v)
    case Failure(e) => Failure(e)
  }

  lemma ValueOrigin(es: seq<(Config, Config)>, x: (string, Config))
    requires StrKeys(es) && x in Significant(es)
    ensures exists j :: 0 <= j < |es| && es[j].1 == x.1
  {
    var j :| 0 <= j < |Named(es)| && Named(es)[j] == x;
    assert es[j].1 == x.1;
  }

  /** Whether `MakeKey` succeeds: every dict reached has string keys only, and
      every value reached through a list, a tuple or a non-private dict key
      has a supported type. */
  predicate Valid(c: Config)
    ensures c.Unsupported? ==> !Valid(c)
    ensures c.Str? || c.Int? || c.Bool? || c.Float? ==> Valid(c)
    ensures c.Dict? && Valid(c) ==> StrKeys(c.entries)
  {
    match c
    case Str(_) => true
    case Int(_) => true
    case Bool(_) => true
    case Float(_) => true
    case List(xs) => forall i :: 0 <= i < |xs| ==> Valid(xs[i])
    case Tuple(xs) => forall i :: 0 <= i < |xs| ==> Valid(xs[i])
    case Dict(es) =>
      && StrKeys(es)
      && forall i :: 0 <= i < |es| ==> (es[i].0.Str? && !IsPrivate(es[i].0.s) ==> Valid(es[i].1))
    case Unsupported(_) => false
  }

  /** `Valid` in terms of the members of a list, tuple or dict, whatever
      their positions: the boundary does not depend on order. */
  lemma ValidByMembers(c: Config)
    ensures c.List? || c.Tuple? ==> (Valid(c) <==> forall x :: x in c.items ==> Valid(x))
    ensures c.Dict? ==> (Valid(c) <==>
      && (forall e :: e in c.entries ==> e.0.Str?)
      && (forall e :: e in c.entries && e.0.Str? && !IsPrivate(e.0.s) ==> Valid(e.1)))
  {
    if c.List? || c.Tuple? {
      var xs := c.items;
      if Valid(c) {
        forall x | x in xs
          ensures Valid(x)
        {
          var i :| 0 <= i < |xs| && xs[i] == x;
        }
      }
      if forall x :: x in xs ==> Valid(x) {
        assert forall i :: 0 <= i < |xs| ==> xs[i] in xs;
      }
    }
    if c.Dict? {
      assert forall e :: e in c.entries ==> exists i :: 0 <= i < |c.entries| && c.entries[i] == e;
    }
  }

  /** `open`, then every part followed by a comma, then `close`. */
  function Enclose(open: string, parts: seq<Result<string, ConfigError>>, close: string): (r: Result<string, ConfigError>)
    ensures r.Success? <==> forall i :: 0 <= i < |parts| ==> parts[i].Success?
    ensures r.Failure? ==> exists i :: 0 <= i < |parts| && parts[i] == r && forall j :: 0 <= j < i ==> parts[j].Success?
  {
    var body :- JoinItems(parts);
    Success(open + body + close)
  }

  lemma ValidFromSignificant(es: seq<(Config, Config)>)
    requires StrKeys(es)
    requires forall i :: 0 <= i < |Significant(es)| ==> Valid(Significant(es)[i].1)
    ensures Valid(Dict(es))
  {
    var sig := Significant(es);
    forall i | 0 <= i < |es| && !IsPrivate(es[i].0.s)
      ensures Valid(es[i].1)
    {
      assert Named(es)[i] in Named(es);
      var j :| 0 <= j < |sig| && sig[j] == Named(es)[i];
    }
  }

  lemma SignificantFromValid(es: seq<(Config, Config)>)
    requires Valid(Dict(es))
    ensures forall i :: 0 <= i < |Significant(es)| ==> Valid(Significant(es)[i].1)
  {
    var sig := Significant(es);
    forall i | 0 <= i < |sig|
      ensures Valid(sig[i].1)
    {
      assert sig[i] in sig;
      var j :| 0 <= j < |Named(es)| && Named(es)[j] == sig[i];
      assert es[j].1 == sig[i].1;
    }
  }

  lemma ValidDict(es: seq<(Config, Config)>)
    requires StrKeys(es)
    ensures Valid(Dict(es)) <==> forall i :: 0 <= i < |Significant(es)| ==> Valid(Significant(es)[i].1)
  {
    if forall i :: 0 <= i < |Significant(es)| ==> Valid(Significant(es)[i].1) {
      ValidFromSignificant(es);
    }
    if Valid(Dict(es)) {
      SignificantFromValid(es);
    }
  }

  lemma DictSucceedsIffValid(es: seq<(Config, Config)>, parts: seq<Result<string, ConfigError>>)
    requires StrKeys(es) && |parts| == |Significant(es)|
    requires forall i :: 0 <= i < |parts| ==> (parts[i].Success? <==> Valid(Significant(es)[i].1))
    ensures Enclose("{", parts, "}").Success? <==> Valid(Dict(es))
  {
    ValidDict(es);
  }

  /** The key of a configuration. */
  function MakeKey(c: Config): (r: Result<string, ConfigError>)
    ensures r.Success? <==> Valid(c)
    ensures c.Dict? && !StrKeys(c.entries) ==> r == Failure(InvalidKey)
    ensures c.Unsupported? ==> r == Failure(InvalidItem)
  {
    match c
    case Str(s) => Success(ReprStr(s))
    case Int(i) => Success(ReprInt(i))
    case Bool(b) => Success(ReprBool(b))
    case Float(text) => Success(text)
    case List(xs) =>
      var parts := seq(|xs|, i requires 0 <= i < |xs| => MakeKey(xs[i]));
      assert forall i :: 0 <= i < |xs| ==> (parts[i].Success? <==> Valid(xs[i]));
      Enclose("[", parts, "]")
    case Tuple(xs) =>
      var parts := seq(|xs|, i requires 0 <= i < |xs| => MakeKey(xs[i]));
      assert forall i :: 0 <= i < |xs| ==> (parts[i].Success? <==> Valid(xs[i]));
      Enclose("[", parts, "]")
    case Dict(es) =>
      if !StrKeys(es) then Failure(InvalidKey)
      else
        var sig := Significant(es);
        var parts := seq(|sig|, i requires 0 <= i < |sig| =>
          ValueOrigin(es, sig[i]);
          Prefixed(ReprStr(sig[i].0) + ":", MakeKey(sig[i].1)));
        assert forall i :: 0 <= i < |sig| ==> (parts[i].Success? <==> Valid(sig[i].1));
        DictSucceedsIffValid(es, parts);
        Enclose("{", parts, "}")
    case Unsupported(_) => Failure(InvalidItem)
  }
}

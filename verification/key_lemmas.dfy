/** What the canonical key promises: insertion order and private entries do
    not matter, lists and tuples agree, and the shape of the output. */
module KeyLemmas {
  import opened Wrappers
  import opened KeySort
  import opened Key
  import opened PyRepr

  /** An item takes part in the key unless its key is a private string; an
      item with a non-string key always matters, since it makes the key fail. */
  predicate Counts(e: (Config, Config))
  {
    !(e.0.Str? && IsPrivate(e.0.s))
  }

  /** Every significant item of `es1` is a significant item of `es2`. */
  lemma SignificantIncluded(es1: seq<(Config, Config)>, es2: seq<(Config, Config)>)
    requires StrKeys(es1) && StrKeys(es2)
    requires forall e :: e in es1 && Counts(e) ==> e in es2
    ensures forall x :: x in Significant(es1) ==> x in Significant(es2)
  {
    forall x | x in Significant(es1)
      ensures x in Significant(es2)
    {
      var j :| 0 <= j < |Named(es1)| && Named(es1)[j] == x;
      assert es1[j] in es1 && Counts(es1[j]);
      var k :| 0 <= k < |es2| && es2[k] == es1[j];
      assert Named(es2)[k] == x;
    }
  }

  /** A dict's key depends on nothing but its sorted significant items. */
  lemma KeyOfSignificant(es1: seq<(Config, Config)>, es2: seq<(Config, Config)>)
    requires StrKeys(es1) && StrKeys(es2)
    requires Significant(es1) == Significant(es2)
    ensures MakeKey(Dict(es1)) == MakeKey(Dict(es2))
  {
  }

  lemma SameSignificantItemsSameKey(es1: seq<(Config, Config)>, es2: seq<(Config, Config)>)
    requires UniqueKeys(es1) && UniqueKeys(es2)
    requires forall e :: (e in es1 && Counts(e)) <==> (e in es2 && Counts(e))
    ensures MakeKey(Dict(es1)) == MakeKey(Dict(es2))
  {
    if !StrKeys(es1) {
      var i :| 0 <= i < |es1| && !es1[i].0.Str?;
      assert es1[i] in es1 && Counts(es1[i]);
    } else if !StrKeys(es2) {
      var i :| 0 <= i < |es2| && !es2[i].0.Str?;
      assert es2[i] in es2 && Counts(es2[i]);
    } else {
      SignificantIncluded(es1, es2);
      SignificantIncluded(es2, es1);
      StrictlySortedUnique(Significant(es1), Significant(es2));
      KeyOfSignificant(es1, es2);
    }
  }

  /** Two dicts holding the same key/value pairs, in any insertion order, have
      the same key. */
  lemma DictOrderIrrelevant(es1: seq<(Config, Config)>, es2: seq<(Config, Config)>)
    requires UniqueKeys(es1) && UniqueKeys(es2)
    requires forall e :: e in es1 <==> e in es2
    ensures MakeKey(Dict(es1)) == MakeKey(Dict(es2))
  {
    SameSignificantItemsSameKey(es1, es2);
  }

  /** Adding or removing an item with a private key never changes the result,
      whatever its value, even one of an unsupported type. */
  lemma PrivateItemIgnored(a: seq<(Config, Config)>, k: string, v: Config, b: seq<(Config, Config)>)
    requires IsPrivate(k)
    requires UniqueKeys(a + [(Str(k), v)] + b)
    ensures MakeKey(Dict(a + [(Str(k), v)] + b)) == MakeKey(Dict(a + b))
  {
    var full := a + [(Str(k), v)] + b;
    assert UniqueKeys(a + b) by {
      forall i, j | 0 <= i < j < |a + b|
        ensures (a + b)[i].0 != (a + b)[j].0
      {
        var i' := if i < |a| then i else i + 1;
        var j' := if j < |a| then j else j + 1;
        assert full[i'] == (a + b)[i] && full[j'] == (a + b)[j];
      }
    }
    assert forall e :: e in full <==> e in a || e == (Str(k), v) || e in b;
    SameSignificantItemsSameKey(full, a + b);
  }

  /** Changing the value under a private key never changes the result. */
  lemma PrivateValueIgnored(a: seq<(Config, Config)>, k: string, v1: Config, v2: Config, b: seq<(Config, Config)>)
    requires IsPrivate(k)
    requires UniqueKeys(a + [(Str(k), v1)] + b)
    ensures MakeKey(Dict(a + [(Str(k), v1)] + b)) == MakeKey(Dict(a + [(Str(k), v2)] + b))
  {
    PrivateItemIgnored(a, k, v1, b);
    assert UniqueKeys(a + [(Str(k), v2)] + b) by {
      var f1, f2 := a + [(Str(k), v1)] + b, a + [(Str(k), v2)] + b;
      assert forall i :: 0 <= i < |f1| ==> f1[i].0 == f2[i].0;
    }
    PrivateItemIgnored(a, k, v2, b);
  }

  /** A list and a tuple with the same elements encode identically. */
  lemma ListTupleSame(xs: seq<Config>)
    ensures MakeKey(List(xs)) == MakeKey(Tuple(xs))
  {
  }

  lemma {:induction false} JoinItemsAppend(rs: seq<Result<string, ConfigError>>, x: Result<string, ConfigError>)
    ensures JoinItems(rs + [x]) ==
      if JoinItems(rs).Failure? then JoinItems(rs)
      else if x.Failure? then x
      else Success(JoinItems(rs).value + x.value + ",")
  {
    if |rs| == 0 {
      assert rs + [x] == [x];
      assert [x][1..] == [];
      assert JoinItems([x][1..]) == Success("");
      if x.Success? {
        assert "" + x.value + "," == x.value + "," + "";
      }
    } else {
      assert (rs + [x])[0] == rs[0];
      assert (rs + [x])[1..] == rs[1..] + [x];
      JoinItemsAppend(rs[1..], x);
      if rs[0].Success? && JoinItems(rs[1..]).Success? && x.Success? {
        var h, t := rs[0].value, JoinItems(rs[1..]).value;
        assert h + "," + (t + x.value + ",") == (h + "," + t) + x.value + ",";
      }
    }
  }

  lemma EncloseAppend(ps: seq<Result<string, ConfigError>>, p: Result<string, ConfigError>)
    ensures Enclose("[", ps, "]").Failure? ==> Enclose("[", ps + [p], "]") == Enclose("[", ps, "]")
    ensures Enclose("[", ps, "]").Success? && p.Failure? ==> Enclose("[", ps + [p], "]") == p
    ensures Enclose("[", ps, "]").Success? && p.Success? ==>
      var k := Enclose("[", ps, "]").value;
      |k| >= 2 && Enclose("[", ps + [p], "]") == Success(k[..|k| - 1] + p.value + ",]")
  {
    JoinItemsAppend(ps, p);
    if JoinItems(ps).Success? && p.Success? {
      var body := JoinItems(ps).value;
      var k := "[" + body + "]";
      assert k[..|k| - 1] == "[" + body;
      assert "[" + (body + p.value + ",") + "]" == k[..|k| - 1] + p.value + ",]";
    }
  }

  lemma ListKeyParts(xs: seq<Config>)
    ensures MakeKey(List(xs)) == Enclose("[", seq(|xs|, i requires 0 <= i < |xs| => MakeKey(xs[i])), "]")
  {
  }

  /** Elements are written in order, each one followed by a comma: appending
      an element inserts its key and a comma just before the closing bracket.
      The first failing element decides the error. */
  lemma ListAppend(xs: seq<Config>, x: Config)
    ensures MakeKey(List(xs)).Failure? ==> MakeKey(List(xs + [x])) == MakeKey(List(xs))
    ensures MakeKey(List(xs)).Success? && MakeKey(x).Failure? ==> MakeKey(List(xs + [x])) == MakeKey(x)
    ensures MakeKey(List(xs)).Success? && MakeKey(x).Success? ==>
      var k := MakeKey(List(xs)).value;
      |k| >= 2 && MakeKey(List(xs + [x])) == Success(k[..|k| - 1] + MakeKey(x).value + ",]")
  {
    var ps := seq(|xs|, i requires 0 <= i < |xs| => MakeKey(xs[i]));
    var qs := seq(|xs + [x]|, i requires 0 <= i < |xs + [x]| => MakeKey((xs + [x])[i]));
    assert qs == ps + [MakeKey(x)];
    ListKeyParts(xs);
    ListKeyParts(xs + [x]);
    EncloseAppend(ps, MakeKey(x));
  }

  /** A dict's key is wrapped in braces, a list's or tuple's in brackets. */
  lemma Shape(c: Config)
    ensures MakeKey(c).Success? && c.Dict? ==> |MakeKey(c).value| >= 2 && MakeKey(c).value[0] == '{' && MakeKey(c).value[|MakeKey(c).value| - 1] == '}'
    ensures MakeKey(c).Success? && (c.List? || c.Tuple?) ==> |MakeKey(c).value| >= 2 && MakeKey(c).value[0] == '[' && MakeKey(c).value[|MakeKey(c).value| - 1] == ']'
  {
  }

  lemma Member<T>(s: seq<T>, i: int)
    requires 0 <= i < |s|
    ensures s[i] in s
  {
  }

  lemma NothingInIsEmpty<T>(s: seq<T>)
    requires forall x :: x !in s
    ensures s == []
  {
    if |s| > 0 {
      Member(s, 0);
      assert false;
    }
  }

  /** A dict with string keys that are all private, or no keys at all, encodes as `{}`. */
  lemma AllPrivateIsEmpty(es: seq<(Config, Config)>)
    requires forall i :: 0 <= i < |es| ==> es[i].0.Str? && IsPrivate(es[i].0.s)
    ensures MakeKey(Dict(es)) == Success("{}")
  {
    assert forall x :: x in Named(es) ==> IsPrivate(x.0);
    NothingInIsEmpty(Significant(es));
    assert ItemParts([]) == [];
    DictKeyFromParts(es, "");
    assert "{" + "" + "}" == "{}";
  }

  /** The int keys the repository's tests expect. */
  lemma ExampleIntKeys()
    ensures MakeKey(Int(2)) == Success("2")
    ensures MakeKey(Int(10)) == Success("10")
  {
    assert Digits(10) == Digits(1) + [DigitChar(0)] == "10";
  }

  /** A bool is written `True` or `False`, not as the int it equals, so
      `[True]` and `[1]` get different keys. */
  lemma ExampleBoolKeys()
    ensures MakeKey(Bool(true)) == Success("True")
    ensures MakeKey(Bool(false)) == Success("False")
    ensures MakeKey(List([Bool(true)])) == Success("[True,]")
    ensures MakeKey(List([Int(1)])) == Success("[1,]")
  {
    OneElementList(Bool(true), "True");
    assert "[" + "True" + ",]" == "[True,]";
    OneElementList(Int(1), "1");
    assert "[" + "1" + ",]" == "[1,]";
  }

  /** A one-element list whose element encodes as `k` encodes as `[k,]`. */
  lemma OneElementList(x: Config, k: string)
    requires MakeKey(x) == Success(k)
    ensures MakeKey(List([x])) == Success("[" + k + ",]")
  {
    ListKeyParts([x]);
    var ps := seq(1, i requires 0 <= i < 1 => MakeKey([x][i]));
    assert ps == [Success(k)];
    assert ps[1..] == [];
    assert JoinItems(ps) == Success(k + "," + "");
    assert "[" + (k + "," + "") + "]" == "[" + k + ",]";
  }

  lemma ExampleOrder()
    ensures StrictlySorted([("end", Int(10)), ("start", Int(0)), ("step", Int(2))])
  {
    assert StringOrder.Less("end", "start");
    assert StringOrder.Less("art", "ep");
    assert StringOrder.Less("tart", "tep");
    assert StringOrder.Less("start", "step");
    StringOrder.LessTransitive("end", "start", "step");
  }

  /** A dict whose keys are public strings already in sorted order is written in its own order. */
  lemma SortedPublicIsSignificant(es: seq<(Config, Config)>)
    requires StrKeys(es) && UniqueKeys(es) && StrictlySorted(Named(es))
    requires forall i :: 0 <= i < |es| ==> !IsPrivate(es[i].0.s)
    ensures Significant(es) == Named(es)
  {
    forall x | x in Named(es)
      ensures !IsPrivate(x.0)
    {
      var i :| 0 <= i < |Named(es)| && Named(es)[i] == x;
    }
    StrictlySortedUnique(Significant(es), Named(es));
  }

  lemma ExampleSignificant(es: seq<(Config, Config)>)
    requires es == [(Str("end"), Int(10)), (Str("start"), Int(0)), (Str("step"), Int(2))]
    ensures StrKeys(es)
    ensures Significant(es) == [("end", Int(10)), ("start", Int(0)), ("step", Int(2))]
  {
    var items := [("end", Int(10)), ("start", Int(0)), ("step", Int(2))];
    assert Named(es)[0] == items[0] && Named(es)[1] == items[1] && Named(es)[2] == items[2];
    assert Named(es) == items;
    ExampleOrder();
    assert !IsPrivate("end") && !IsPrivate("start") && !IsPrivate("step");
    SortedPublicIsSignificant(es);
  }

  /** A public item with a plain key is written `'key':value`. */
  lemma PlainItemPart(items: seq<(string, Config)>, i: int, value: string)
    requires 0 <= i < |items|
    requires forall j :: 0 <= j < |items[i].0| ==> PlainChar(items[i].0[j])
    requires MakeKey(items[i].1) == Success(value)
    ensures ItemParts(items)[i] == Success("'" + items[i].0 + "':" + value)
  {
    PlainRepr(items[i].0);
    assert "'" + items[i].0 + "'" + ":" + value == "'" + items[i].0 + "':" + value;
  }

  /** The string equations the example needs, kept apart so that the lemmas
      about the key see them as facts rather than re-deriving them. */
  lemma ExampleLiterals()
    ensures "'" + "end" + "':" + "10" == "'end':10"
    ensures "'" + "start" + "':" + "0" == "'start':0"
    ensures "'" + "step" + "':" + "2" == "'step':2"
  {
  }

  lemma ExampleItemPart0(items: seq<(string, Config)>)
    requires items == [("end", Int(10)), ("start", Int(0)), ("step", Int(2))]
    ensures ItemParts(items)[0] == Success("'end':10")
  {
    ExampleIntKeys();
    PlainItemPart(items, 0, "10");
    ExampleLiterals();
  }

  lemma ExampleItemPart1(items: seq<(string, Config)>)
    requires items == [("end", Int(10)), ("start", Int(0)), ("step", Int(2))]
    ensures ItemParts(items)[1] == Success("'start':0")
  {
    assert MakeKey(Int(0)) == Success("0");
    PlainItemPart(items, 1, "0");
    ExampleLiterals();
  }

  lemma ExampleItemPart2(items: seq<(string, Config)>)
    requires items == [("end", Int(10)), ("start", Int(0)), ("step", Int(2))]
    ensures ItemParts(items)[2] == Success("'step':2")
  {
    ExampleIntKeys();
    PlainItemPart(items, 2, "2");
    ExampleLiterals();
  }

  lemma ExampleItemParts(items: seq<(string, Config)>)
    requires items == [("end", Int(10)), ("start", Int(0)), ("step", Int(2))]
    ensures ItemParts(items) == [Success("'end':10"), Success("'start':0"), Success("'step':2")]
  {
    ExampleItemPart0(items);
    ExampleItemPart1(items);
    ExampleItemPart2(items);
    Three(ItemParts(items), Success("'end':10"), Success("'start':0"), Success("'step':2"));
  }

  lemma Three<T>(s: seq<T>, a: T, b: T, c: T)
    requires |s| == 3 && s[0] == a && s[1] == b && s[2] == c
    ensures s == [a, b, c]
  {
  }

  lemma ExampleJoin()
    ensures JoinItems([Success("'end':10"), Success("'start':0"), Success("'step':2")])
         == Success("'end':10,'start':0,'step':2,")
  {
    var parts: seq<Result<string, ConfigError>> := [Success("'end':10"), Success("'start':0"), Success("'step':2")];
    assert parts[1..][1..] == [parts[2]];
    assert |[parts[2]][1..]| == 0;
    assert "'step':2" + "," + "" == "'step':2,";
    assert JoinItems([parts[2]]) == Success("'step':2,");
    assert "'start':0" + "," + "'step':2," == "'start':0,'step':2,";
    assert JoinItems(parts[1..]) == Success("'start':0,'step':2,");
    assert "'end':10" + "," + "'start':0,'step':2," == "'end':10,'start':0,'step':2,";
  }

  /** The written form of each significant item, `'key':value`. */
  function ItemParts(sig: seq<(string, Config)>): seq<Result<string, ConfigError>>
  {
    seq(|sig|, i requires 0 <= i < |sig| => Prefixed(ReprStr(sig[i].0) + ":", MakeKey(sig[i].1)))
  }

  lemma DictKeyParts(es: seq<(Config, Config)>)
    requires StrKeys(es)
    ensures MakeKey(Dict(es)) == Enclose("{", ItemParts(Significant(es)), "}")
  {
  }

  lemma DictKeyFromParts(es: seq<(Config, Config)>, body: string)
    requires StrKeys(es) && JoinItems(ItemParts(Significant(es))) == Success(body)
    ensures MakeKey(Dict(es)) == Success("{" + body + "}")
  {
    DictKeyParts(es);
  }

  lemma ExampleBodyOf(es: seq<(Config, Config)>)
    requires es == [(Str("end"), Int(10)), (Str("start"), Int(0)), (Str("step"), Int(2))]
    ensures StrKeys(es)
    ensures JoinItems(ItemParts(Significant(es))) == Success("'end':10,'start':0,'step':2,")
  {
    ExampleSignificant(es);
    var sig := Significant(es);
    ExampleItemParts(sig);
    ExampleJoin();
  }

  lemma ExampleDictKeyOf(es: seq<(Config, Config)>)
    requires es == [(Str("end"), Int(10)), (Str("start"), Int(0)), (Str("step"), Int(2))]
    ensures MakeKey(Dict(es)) == Success("{'end':10,'start':0,'step':2,}")
  {
    ExampleBodyOf(es);
    DictKeyFromParts(es, "'end':10,'start':0,'step':2,");
    ExampleBraces();
  }

  lemma ExampleBraces()
    ensures "{" + "'end':10,'start':0,'step':2," + "}" == "{'end':10,'start':0,'step':2,}"
  {
  }

  /** The dict key the repository's tests expect for `{"end":10,"start":0,"step":2}`. */
  lemma ExampleDictKey()
    ensures MakeKey(Dict([(Str("end"), Int(10)), (Str("start"), Int(0)), (Str("step"), Int(2))]))
         == Success("{'end':10,'start':0,'step':2,}")
  {
    ExampleDictKeyOf([(Str("end"), Int(10)), (Str("start"), Int(0)), (Str("step"), Int(2))]);
  }
}

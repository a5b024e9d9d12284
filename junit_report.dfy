/**
 * The tree of suites and cases that the report reader hands over, and its
 * flattening into a map from test key to duration (convert_junit_to_dict).
 *
 * A suite has a name and its children in document order; a child is either
 * a nested suite or a test case carrying a class name, a test name and its
 * duration in seconds. Flattening keys each case by the name of the suite
 * that IMMEDIATELY encloses it; when two cases produce the same key, the
 * one met later in document order wins.
 */
module JunitReport {

  datatype Suite = Suite(name: string, children: seq<Item>)

  datatype Item =
    | Nested(suite: Suite)
    | Case(classname: string, name: string, time: real)

  /** The key of a case: enclosing suite name, class name and test name, joined by dots. */
  function Key(suiteName: string, classname: string, name: string): string
  {
    suiteName + "." + classname + "." + name
  }

  /** One (key, duration) pair per case. */
  type Entry = (string, real)

  // ---------------------------------------------------------------------------
  // Specification of the flattening
  // ---------------------------------------------------------------------------

  /** The map built for a suite: its children folded in order into an empty map. */
  function Flatten(s: Suite): map<string, real>
    decreases s
  {
    FlattenChildren(s.name, s.children)
  }

  /**
   * The map built from a run of children of the suite named `enclosing`:
   * a nested suite merges its own map over what came before (dict.update),
   * a case stores its duration under its key (a dict assignment).
   */
  function FlattenChildren(enclosing: string, items: seq<Item>): map<string, real>
    decreases items
  {
    if items == [] then map[]
    else
      var earlier := FlattenChildren(enclosing, items[..|items| - 1]);
      match items[|items| - 1]
      case Nested(s) =>
        assert items decreases to items[|items| - 1];
        earlier + Flatten(s)
      case Case(c, n, t) => earlier[Key(enclosing, c, n) := t]
  }

  // ---------------------------------------------------------------------------
  // An independent reference: the list of all cases, and "the last one wins"
  // ---------------------------------------------------------------------------

  /** Every case of the tree in document order, keyed by its enclosing suite. */
  function Entries(s: Suite): seq<Entry>
    decreases s
  {
    EntriesOf(s.name, s.children)
  }

  function EntriesOf(enclosing: string, items: seq<Item>): seq<Entry>
    decreases items
  {
    if items == [] then []
    else
      EntriesOf(enclosing, items[..|items| - 1]) +
      match items[|items| - 1]
      case Nested(s) =>
        assert items decreases to items[|items| - 1];
        Entries(s)
      case Case(c, n, t) => [(Key(enclosing, c, n), t)]
  }

  /** A list of pairs read into a map, a later pair overwriting an earlier one. */
  function LastWins(es: seq<Entry>): map<string, real>
  {
    if es == [] then map[]
    else LastWins(es[..|es| - 1])[es[|es| - 1].0 := es[|es| - 1].1]
  }

  /** Reading two lists in a row is merging the second's map over the first's. */
  lemma {:induction false} LastWinsAppend(a: seq<Entry>, b: seq<Entry>)
    ensures LastWins(a + b) == LastWins(a) + LastWins(b)
    decreases |b|
  {
    if b == [] {
      assert a + b == a;
    } else {
      var b' := b[..|b| - 1];
      assert (a + b)[..|a + b| - 1] == a + b';
      LastWinsAppend(a, b');
    }
  }

  /**
   * A key is in the map exactly when some pair carries it, and it is mapped
   * to the duration of the LAST pair that carries it.
   */
  lemma {:induction false} LastWinsLookup(es: seq<Entry>, key: string)
    ensures key in LastWins(es) <==> exists i :: 0 <= i < |es| && es[i].0 == key
    ensures forall i :: 0 <= i < |es| && es[i].0 == key &&
                        (forall j :: i < j < |es| ==> es[j].0 != key)
                        ==> key in LastWins(es) && LastWins(es)[key] == es[i].1
    decreases |es|
  {
    if es != [] {
      var init := es[..|es| - 1];
      LastWinsLookup(init, key);
      if es[|es| - 1].0 != key {
        forall i | 0 <= i < |init| && init[i].0 == key
          ensures es[i].0 == key
        {
        }
        forall i | 0 <= i < |es| && es[i].0 == key
          ensures init[i].0 == key
        {
        }
      }
    }
  }

  /** The flattening agrees with the reference: the list of cases, last one winning. */
  lemma {:induction false} FlattenIsLastWins(s: Suite)
    ensures Flatten(s) == LastWins(Entries(s))
    decreases s
  {
    FlattenChildrenIsLastWins(s.name, s.children);
  }

  lemma {:induction false} FlattenChildrenIsLastWins(enclosing: string, items: seq<Item>)
    ensures FlattenChildren(enclosing, items) == LastWins(EntriesOf(enclosing, items))
    decreases items
  {
    if items != [] {
      var init := items[..|items| - 1];
      FlattenChildrenIsLastWins(enclosing, init);
      match items[|items| - 1]
      case Nested(s) =>
        assert items decreases to items[|items| - 1];
        FlattenIsLastWins(s);
        LastWinsAppend(EntriesOf(enclosing, init), Entries(s));
      case Case(c, n, t) =>
        LastWinsAppend(EntriesOf(enclosing, init), [(Key(enclosing, c, n), t)]);
        assert LastWins([(Key(enclosing, c, n), t)]) == map[Key(enclosing, c, n) := t];
    }
  }

  /**
   * The flattened map holds exactly the keys of the cases of the tree, and
   * each key maps to the duration of the last case in document order that
   * carries it.
   */
  lemma FlattenLookup(s: Suite, key: string)
    ensures key in Flatten(s) <==> exists i :: 0 <= i < |Entries(s)| && Entries(s)[i].0 == key
    ensures forall i :: 0 <= i < |Entries(s)| && Entries(s)[i].0 == key &&
                        (forall j :: i < j < |Entries(s)| ==> Entries(s)[j].0 != key)
                        ==> key in Flatten(s) && Flatten(s)[key] == Entries(s)[i].1
  {
    FlattenIsLastWins(s);
    LastWinsLookup(Entries(s), key);
  }

  // ---------------------------------------------------------------------------
  // The flattening child by child
  // ---------------------------------------------------------------------------

  /** Folding a run of children in two halves is merging the second half's map over the first's. */
  lemma {:induction false} FlattenChildrenAppend(enclosing: string, a: seq<Item>, b: seq<Item>)
    ensures FlattenChildren(enclosing, a + b) ==
            FlattenChildren(enclosing, a) + FlattenChildren(enclosing, b)
    decreases |b|
  {
    if b == [] {
      assert a + b == a;
    } else {
      var b' := b[..|b| - 1];
      assert (a + b)[..|a + b| - 1] == a + b';
      assert (a + b)[|a + b| - 1] == b[|b| - 1];
      FlattenChildrenAppend(enclosing, a, b');
    }
  }

  /** Splits the children of `s` around child `i`. */
  lemma FlattenAround(s: Suite, i: nat)
    requires i < |s.children|
    ensures Flatten(s) ==
            FlattenChildren(s.name, s.children[..i]) +
            FlattenChildren(s.name, [s.children[i]]) +
            FlattenChildren(s.name, s.children[i + 1..])
  {
    var cs := s.children;
    assert cs == cs[..i] + [cs[i]] + cs[i + 1..];
    FlattenChildrenAppend(s.name, cs[..i] + [cs[i]], cs[i + 1..]);
    FlattenChildrenAppend(s.name, cs[..i], [cs[i]]);
  }

  /**
   * A case directly under `s` yields the key `s.name.classname.name`, and
   * that key holds the case's duration unless a later child of `s`
   * produces the same key.
   */
  lemma CaseUnderSuite(s: Suite, i: nat)
    requires i < |s.children| && s.children[i].Case?
    ensures var c := s.children[i];
            var k := Key(s.name, c.classname, c.name);
            k in Flatten(s) &&
            (k !in FlattenChildren(s.name, s.children[i + 1..]) ==> Flatten(s)[k] == c.time)
  {
    FlattenAround(s, i);
    var c := s.children[i];
    assert [c][..0] == [];
  }

  /**
   * A suite nested directly under `s` contributes every entry of its own
   * map, keyed under its own name, unless a later child of `s` produces the
   * same key.
   */
  lemma NestedUnderSuite(s: Suite, i: nat, k: string)
    requires i < |s.children| && s.children[i].Nested?
    requires k in Flatten(s.children[i].suite)
    ensures k in Flatten(s)
    ensures k !in FlattenChildren(s.name, s.children[i + 1..]) ==>
            Flatten(s)[k] == Flatten(s.children[i].suite)[k]
  {
    FlattenAround(s, i);
    assert [s.children[i]][..0] == [];
  }

  /** The prefix is the enclosing suite's name, not the root's. */
  lemma EnclosingSuiteNamesTheKey()
    ensures Flatten(Suite("root", [Nested(Suite("inner", [Case("C", "t", 1.5)]))]))
            == map["inner.C.t" := 1.5]
  {
    var inner := Suite("inner", [Case("C", "t", 1.5)]);
    assert [Case("C", "t", 1.5)][..0] == [];
    assert Key("inner", "C", "t") == "inner.C.t";
    assert [Nested(inner)][..0] == [];
  }

  // ---------------------------------------------------------------------------
  // The operation
  // ---------------------------------------------------------------------------

  /**
   * convert_junit_to_dict: walks the children of `xml` in order, merging
   * the map of each nested suite (computed recursively) and storing each
   * case under its key.
   */
  method ConvertJunitToDict(xml: Suite) returns (tests: map<string, real>)
    ensures tests == Flatten(xml)
    decreases xml
  {
    tests := map[];
    var i := 0;
    while i < |xml.children|
      invariant 0 <= i <= |xml.children|
      invariant tests == FlattenChildren(xml.name, xml.children[..i])
    {
      assert xml.children[..i + 1][..i] == xml.children[..i];
      match xml.children[i] {
        case Nested(sub) =>
          var inner := ConvertJunitToDict(sub);
          tests := tests + inner;
        case Case(c, n, t) =>
          tests := tests[Key(xml.name, c, n) := t];
      }
      i := i + 1;
    }
    assert xml.children[..i] == xml.children;
  }
}

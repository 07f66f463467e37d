/** The untyped decoder: `ReadValue(factory, reader)` builds a tree of
    `JsonData` wrappers from the reader's tokens. The reader is a token
    sequence and a position; a result carries the value and the position after
    the last token read. */
module JsonTree {
  import opened Wrappers
  import opened JsonValues

  /** The value of the property `key`, if the object has one. */
  function Lookup(props: seq<Prop>, key: string): Option<Option<JsonNode>>
    decreases |props|
  {
    if |props| == 0 then None
    else if props[0].key == key then Some(props[0].value)
    else Lookup(props[1..], key)
  }

  function Keys(props: seq<Prop>): set<string>
    decreases |props|
  {
    if |props| == 0 then {} else {props[0].key} + Keys(props[1..])
  }

  predicate DistinctKeys(props: seq<Prop>) {
    forall i, j | 0 <= i < j < |props| :: props[i].key != props[j].key
  }

  /** `instance[key] = value` on a `JsonData` object: a present key keeps its
      place and takes the new value, a new key goes at the end. */
  function Assign(props: seq<Prop>, key: string, value: Option<JsonNode>): seq<Prop>
    decreases |props|
  {
    if |props| == 0 then [Prop(key, value)]
    else if props[0].key == key then [Prop(key, value)] + props[1..]
    else [props[0]] + Assign(props[1..], key, value)
  }

  /** An assignment adds the key; a present key keeps the length, a new key
      is appended with its value. */
  lemma {:induction false} AssignKeys(props: seq<Prop>, key: string, value: Option<JsonNode>)
    ensures Keys(Assign(props, key, value)) == Keys(props) + {key}
    ensures key in Keys(props) ==> |Assign(props, key, value)| == |props|
    ensures key !in Keys(props) ==> Assign(props, key, value) == props + [Prop(key, value)]
    decreases |props|
  {
    if |props| > 0 {
      if props[0].key == key {
        assert ([Prop(key, value)] + props[1..])[1..] == props[1..];
      } else {
        AssignKeys(props[1..], key, value);
        var r := Assign(props, key, value);
        assert r[1..] == Assign(props[1..], key, value);
        if key !in Keys(props) {
          assert props == [props[0]] + props[1..];
        }
      }
    }
  }

  /** After an assignment the key holds the new value and every other key
      keeps its own; distinct keys stay distinct. */
  lemma {:induction false} AssignLookup(props: seq<Prop>, key: string, value: Option<JsonNode>, other: string)
    ensures Lookup(Assign(props, key, value), key) == Some(value)
    ensures other != key ==> Lookup(Assign(props, key, value), other) == Lookup(props, other)
    ensures DistinctKeys(props) ==> DistinctKeys(Assign(props, key, value))
    decreases |props|
  {
    if |props| > 0 && props[0].key != key {
      AssignLookup(props[1..], key, value, other);
      assert Assign(props, key, value)[1..] == Assign(props[1..], key, value);
    }
    if DistinctKeys(props) {
      AssignDistinct(props, key, value);
    }
  }

  /** Distinct keys stay distinct under an assignment. */
  lemma {:induction false} AssignDistinct(props: seq<Prop>, key: string, value: Option<JsonNode>)
    requires DistinctKeys(props)
    ensures DistinctKeys(Assign(props, key, value))
    decreases |props|
  {
    var r := Assign(props, key, value);
    if |props| > 0 && props[0].key != key {
      assert DistinctKeys(props[1..]) by {
        forall i, j | 0 <= i < j < |props[1..]| ensures props[1..][i].key != props[1..][j].key {
          assert props[1..][i] == props[i + 1] && props[1..][j] == props[j + 1];
        }
      }
      AssignDistinct(props[1..], key, value);
      assert r[1..] == Assign(props[1..], key, value);
      forall j | 1 <= j < |r| ensures r[0].key != r[j].key {
        KeysHasIndex(Assign(props[1..], key, value), j - 1);
        AssignKeys(props[1..], key, value);
        KeysOfTail(props);
        assert props[0].key !in Keys(props[1..]);
      }
    } else if |props| > 0 {
      forall i, j | 0 <= i < j < |r| ensures r[i].key != r[j].key {
        assert r[i].key == props[i].key && r[j].key == props[j].key;
      }
    }
  }

  lemma {:induction false} KeysHasIndex(props: seq<Prop>, i: nat)
    requires i < |props|
    ensures props[i].key in Keys(props)
    decreases i
  {
    if i > 0 {
      KeysHasIndex(props[1..], i - 1);
    }
  }

  /** With distinct keys, the first key does not occur again further on. */
  lemma KeysOfTail(props: seq<Prop>)
    requires |props| > 0 && DistinctKeys(props)
    ensures props[0].key !in Keys(props[1..])
  {
    forall j | 0 <= j < |props[1..]| ensures props[1..][j].key != props[0].key {
      assert props[1..][j] == props[j + 1];
    }
    KeysWithout(props[1..], props[0].key);
  }

  /** A key no property carries is not among the keys. */
  lemma {:induction false} KeysWithout(props: seq<Prop>, key: string)
    requires forall i | 0 <= i < |props| :: props[i].key != key
    ensures key !in Keys(props)
    decreases |props|
  {
    if |props| > 0 {
      forall i | 0 <= i < |props[1..]| ensures props[1..][i].key != key {
        assert props[1..][i] == props[i + 1];
      }
      KeysWithout(props[1..], key);
    }
  }

  /** The untyped `ReadValue`: `ArrayEnd` and `Null` read as null; a scalar
      becomes a wrapper holding it; an array reads items until an `ArrayEnd`
      (null items are kept); an object reads name/value pairs until
      `ObjectEnd`; a stray `PropertyName` or `ObjectEnd` gives a wrapper whose
      type was never set. */
  function ReadTree(ts: seq<Token>, pos: nat): (r: Result<(Option<JsonNode>, nat), JsonError>)
    requires pos <= |ts|
    ensures r.Success? ==> pos < r.value.1 <= |ts|
    decreases |ts| - pos, 0
  {
    if pos == |ts| then Failure(UnexpectedEnd)
    else
      match ts[pos]
      case ArrayEnd => Success((None, pos + 1))
      case Null => Success((None, pos + 1))
      case String(s) => Success((Some(JString(s)), pos + 1))
      case Double(d) => Success((Some(JDouble(d)), pos + 1))
      case Int(i) => Success((Some(JInt(i)), pos + 1))
      case Long(l) => Success((Some(JLong(l)), pos + 1))
      case Boolean(b) => Success((Some(JBool(b)), pos + 1))
      case ArrayStart => ReadTreeItems(ts, pos + 1, [])
      case ObjectStart => ReadTreeProps(ts, pos + 1, [])
      case PropertyName(_) => Success((Some(JNone), pos + 1))
      case ObjectEnd => Success((Some(JNone), pos + 1))
  }

  /** The array loop, with `acc` read so far: a null read straight off an
      `ArrayEnd` ends it. */
  function ReadTreeItems(ts: seq<Token>, pos: nat, acc: seq<Option<JsonNode>>): (r: Result<(Option<JsonNode>, nat), JsonError>)
    requires pos <= |ts|
    ensures r.Success? ==> pos < r.value.1 <= |ts|
    decreases |ts| - pos, 1
  {
    var item :- ReadTree(ts, pos);
    if item.0.None? && ts[item.1 - 1].ArrayEnd? then Success((Some(JArray(acc)), item.1))
    else ReadTreeItems(ts, item.1, acc + [item.0])
  }

  /** The object loop, with `acc` read so far: the value is read before the
      key is stored, so a null key fails only after its value. */
  function ReadTreeProps(ts: seq<Token>, pos: nat, acc: seq<Prop>): (r: Result<(Option<JsonNode>, nat), JsonError>)
    requires pos <= |ts|
    ensures r.Success? ==> pos < r.value.1 <= |ts|
    decreases |ts| - pos, 1
  {
    if pos == |ts| then Failure(UnexpectedEnd)
    else if ts[pos].ObjectEnd? then Success((Some(JObject(acc)), pos + 1))
    else
      var key :- KeyOf(ts[pos]);
      var value :- ReadTree(ts, pos + 1);
      if key.None? then Failure(NullKey)
      else ReadTreeProps(ts, value.1, Assign(acc, key.value, value.0))
  }

  /** The tokens a JSON text for a tree reads as: the reference the decoder
      is checked against. */
  function Serialize(n: JsonNode): seq<Token>
    decreases n, 1
  {
    match n
    case JNone => []
    case JString(s) => [String(s)]
    case JDouble(d) => [Double(d)]
    case JInt(i) => [Int(i)]
    case JLong(l) => [Long(l)]
    case JBool(b) => [Boolean(b)]
    case JArray(items) => [ArrayStart] + SerializeItems(items) + [ArrayEnd]
    case JObject(props) => [ObjectStart] + SerializeProps(props) + [ObjectEnd]
  }

  function SerializeOpt(o: Option<JsonNode>): seq<Token>
    decreases o, 2
  {
    match o
    case None => [Null]
    case Some(n) => Serialize(n)
  }

  function SerializeItems(items: seq<Option<JsonNode>>): seq<Token>
    decreases items, 0
  {
    if |items| == 0 then [] else SerializeOpt(items[0]) + SerializeItems(items[1..])
  }

  function SerializeProps(props: seq<Prop>): seq<Token>
    decreases props, 0
  {
    if |props| == 0 then []
    else [PropertyName(props[0].key)] + SerializeOpt(props[0].value) + SerializeProps(props[1..])
  }

  /** A tree a JSON text can denote: every wrapper has a type and no object
      repeats a key. */
  predicate WellFormedNode(n: JsonNode)
    decreases n, 1
  {
    match n
    case JNone => false
    case JArray(items) => WellFormedItems(items)
    case JObject(props) => DistinctKeys(props) && WellFormedProps(props)
    case _ => true
  }

  predicate WellFormedOpt(o: Option<JsonNode>)
    decreases o, 2
  {
    match o
    case None => true
    case Some(n) => WellFormedNode(n)
  }

  predicate WellFormedItems(items: seq<Option<JsonNode>>)
    decreases items, 0
  {
    |items| > 0 ==> WellFormedOpt(items[0]) && WellFormedItems(items[1..])
  }

  predicate WellFormedProps(props: seq<Prop>)
    decreases props, 0
  {
    |props| > 0 ==> WellFormedOpt(props[0].value) && WellFormedProps(props[1..])
  }

  /** `s` occurs in `ts` starting at `pos`. */
  predicate At(ts: seq<Token>, pos: nat, s: seq<Token>) {
    pos + |s| <= |ts| && forall i | 0 <= i < |s| :: ts[pos + i] == s[i]
  }

  lemma AtSplit(ts: seq<Token>, pos: nat, a: seq<Token>, b: seq<Token>)
    requires At(ts, pos, a + b)
    ensures At(ts, pos, a) && At(ts, pos + |a|, b)
  {
    forall i | 0 <= i < |a| ensures ts[pos + i] == a[i] {
      assert (a + b)[i] == a[i];
    }
    forall i | 0 <= i < |b| ensures ts[pos + |a| + i] == b[i] {
      assert (a + b)[|a| + i] == b[i];
    }
  }

  lemma AtHead(ts: seq<Token>, pos: nat, s: seq<Token>)
    requires At(ts, pos, s) && |s| > 0
    ensures pos < |ts| && ts[pos] == s[0]
  {
    assert ts[pos + 0] == s[0];
  }

  /** A serialized tree occupies at least one token. */
  lemma {:induction false} SerializeOptNonEmpty(o: Option<JsonNode>)
    requires WellFormedOpt(o)
    ensures |SerializeOpt(o)| > 0
  {
  }

  /** Round trip: reading the tokens of a well-formed tree gives the tree
      back and stops right after them. */
  lemma {:induction false} ReadTreeSerialize(ts: seq<Token>, pos: nat, o: Option<JsonNode>)
    requires WellFormedOpt(o) && At(ts, pos, SerializeOpt(o))
    ensures ReadTree(ts, pos) == Success((o, pos + |SerializeOpt(o)|))
    decreases o, 2
  {
    match o
    case None =>
      AtHead(ts, pos, [Null]);
    case Some(n) =>
      if n.JArray? {
        ReadTreeArraySerialize(ts, pos, n);
      } else if n.JObject? {
        ReadTreeObjectSerialize(ts, pos, n);
      } else {
        SerializeOptNonEmpty(o);
        AtHead(ts, pos, SerializeOpt(o));
      }
  }

  lemma {:induction false} ReadTreeArraySerialize(ts: seq<Token>, pos: nat, n: JsonNode)
    requires n.JArray? && WellFormedNode(n) && At(ts, pos, Serialize(n))
    ensures ReadTree(ts, pos) == Success((Some(n), pos + |Serialize(n)|))
    decreases n, 2
  {
    var items := n.items;
    assert Serialize(n) == [ArrayStart] + (SerializeItems(items) + [ArrayEnd]);
    AtSplit(ts, pos, [ArrayStart], SerializeItems(items) + [ArrayEnd]);
    AtHead(ts, pos, [ArrayStart]);
    ReadTreeItemsSerialize(ts, pos + 1, [], items);
    assert [] + items == items;
  }

  lemma {:induction false} ReadTreeObjectSerialize(ts: seq<Token>, pos: nat, n: JsonNode)
    requires n.JObject? && WellFormedNode(n) && At(ts, pos, Serialize(n))
    ensures ReadTree(ts, pos) == Success((Some(n), pos + |Serialize(n)|))
    decreases n, 2
  {
    var props := n.props;
    assert Serialize(n) == [ObjectStart] + (SerializeProps(props) + [ObjectEnd]);
    AtSplit(ts, pos, [ObjectStart], SerializeProps(props) + [ObjectEnd]);
    AtHead(ts, pos, [ObjectStart]);
    assert DistinctKeys([] + props) by { assert [] + props == props; }
    DistinctKeysFresh([], props);
    ReadTreePropsSerialize(ts, pos + 1, [], props);
    assert [] + props == props;
  }

  lemma {:induction false} ReadTreeItemsSerialize(ts: seq<Token>, pos: nat, acc: seq<Option<JsonNode>>, items: seq<Option<JsonNode>>)
    requires WellFormedItems(items) && At(ts, pos, SerializeItems(items) + [ArrayEnd])
    ensures ReadTreeItems(ts, pos, acc) == Success((Some(JArray(acc + items)), pos + |SerializeItems(items)| + 1))
    decreases items, 1
  {
    if |items| == 0 {
      assert SerializeItems(items) + [ArrayEnd] == [ArrayEnd];
      AtHead(ts, pos, [ArrayEnd]);
      assert acc + items == acc;
    } else {
      var head := SerializeOpt(items[0]);
      assert SerializeItems(items) + [ArrayEnd] == head + (SerializeItems(items[1..]) + [ArrayEnd]);
      AtSplit(ts, pos, head, SerializeItems(items[1..]) + [ArrayEnd]);
      ReadTreeSerialize(ts, pos, items[0]);
      SerializeOptNonEmpty(items[0]);
      var q := pos + |head|;
      if items[0].None? {
        AtHead(ts, pos, head);
      } else {
        assert ReadTree(ts, pos).value.0.Some?;
      }
      ReadTreeItemsSerialize(ts, q, acc + [items[0]], items[1..]);
      assert acc + [items[0]] + items[1..] == acc + items;
    }
  }

  lemma {:induction false} ReadTreePropsSerialize(ts: seq<Token>, pos: nat, acc: seq<Prop>, props: seq<Prop>)
    requires WellFormedProps(props) && FreshKeys(acc, props)
    requires At(ts, pos, SerializeProps(props) + [ObjectEnd])
    ensures ReadTreeProps(ts, pos, acc) == Success((Some(JObject(acc + props)), pos + |SerializeProps(props)| + 1))
    decreases props, 1
  {
    if |props| == 0 {
      ReadTreePropsEnd(ts, pos, acc, props);
    } else {
      var p, rest := props[0], props[1..];
      var q := pos + 1 + |SerializeOpt(p.value)|;
      ReadTreePair(ts, pos, props);
      ReadTreePropsSerialize(ts, q, acc + [p], rest);
      ReadTreePropsCons(ts, pos, q, acc, props, q + |SerializeProps(rest)| + 1);
    }
  }

  /** The tokens of a non-empty property list: the first name, its value as
      it reads, then the tokens of the rest. */
  lemma ReadTreePair(ts: seq<Token>, pos: nat, props: seq<Prop>)
    requires |props| > 0 && WellFormedOpt(props[0].value)
    requires At(ts, pos, SerializeProps(props) + [ObjectEnd])
    ensures var q := pos + 1 + |SerializeOpt(props[0].value)|;
      && pos < |ts| && ts[pos] == PropertyName(props[0].key)
      && ReadTree(ts, pos + 1) == Success((props[0].value, q))
      && At(ts, q, SerializeProps(props[1..]) + [ObjectEnd])
      && q + |SerializeProps(props[1..])| + 1 == pos + |SerializeProps(props)| + 1
    decreases props, 0
  {
    var p := props[0];
    PropsAt(ts, pos, props);
    AtSplit(ts, pos, [PropertyName(p.key)], SerializeOpt(p.value));
    AtHead(ts, pos, [PropertyName(p.key)]);
    ReadTreeSerialize(ts, pos + 1, p.value);
  }

  /** A pair with a new name is appended: the object read from it on is the
      object read from the next pair on, with it in front. */
  lemma ReadTreePropsCons(ts: seq<Token>, pos: nat, q: nat, acc: seq<Prop>, props: seq<Prop>, end: nat)
    requires |props| > 0 && props[0].key !in Keys(acc)
    requires pos < |ts| && ts[pos] == PropertyName(props[0].key)
    requires ReadTree(ts, pos + 1) == Success((props[0].value, q))
    requires ReadTreeProps(ts, q, acc + [props[0]]) == Success((Some(JObject((acc + [props[0]]) + props[1..])), end))
    ensures ReadTreeProps(ts, pos, acc) == Success((Some(JObject(acc + props)), end))
  {
    ReadTreePropsStep(ts, pos, acc, props[0], q);
    MoveFirst(acc, props);
  }

  /** Moving the first element of `s` to the end of `acc` keeps `acc + s`. */
  lemma MoveFirst<T>(acc: seq<T>, s: seq<T>)
    requires |s| > 0
    ensures (acc + [s[0]]) + s[1..] == acc + s
  {
  }

  /** An `ObjectEnd` closes the object with the pairs read so far. */
  lemma ReadTreePropsEnd(ts: seq<Token>, pos: nat, acc: seq<Prop>, props: seq<Prop>)
    requires |props| == 0 && At(ts, pos, SerializeProps(props) + [ObjectEnd])
    ensures ReadTreeProps(ts, pos, acc) == Success((Some(JObject(acc + props)), pos + |SerializeProps(props)| + 1))
  {
    assert SerializeProps(props) + [ObjectEnd] == [ObjectEnd];
    AtHead(ts, pos, [ObjectEnd]);
    assert acc + props == acc;
  }

  /** The tokens of a non-empty property list: the first pair, then the rest. */
  lemma PropsAt(ts: seq<Token>, pos: nat, props: seq<Prop>)
    requires |props| > 0 && At(ts, pos, SerializeProps(props) + [ObjectEnd])
    ensures At(ts, pos, [PropertyName(props[0].key)] + SerializeOpt(props[0].value))
    ensures At(ts, pos + 1 + |SerializeOpt(props[0].value)|, SerializeProps(props[1..]) + [ObjectEnd])
    ensures |SerializeProps(props)| == 1 + |SerializeOpt(props[0].value)| + |SerializeProps(props[1..])|
  {
    var head := [PropertyName(props[0].key)] + SerializeOpt(props[0].value);
    var tail := SerializeProps(props[1..]) + [ObjectEnd];
    assert SerializeProps(props) + [ObjectEnd] == head + tail;
    AtSplit(ts, pos, head, tail);
  }

  /** A name/value pair whose name is new is read and appended. */
  lemma ReadTreePropsStep(ts: seq<Token>, pos: nat, acc: seq<Prop>, p: Prop, q: nat)
    requires pos < |ts| && ts[pos] == PropertyName(p.key) && p.key !in Keys(acc)
    requires ReadTree(ts, pos + 1) == Success((p.value, q))
    ensures ReadTreeProps(ts, pos, acc) == ReadTreeProps(ts, q, acc + [p])
  {
    AssignKeys(acc, p.key, p.value);
  }

  /** Each key of `props` is new when it is read after `acc` and the keys
      before it. */
  predicate FreshKeys(acc: seq<Prop>, props: seq<Prop>)
    decreases |props|
  {
    |props| > 0 ==> props[0].key !in Keys(acc) && FreshKeys(acc + [props[0]], props[1..])
  }

  lemma {:induction false} DistinctKeysFresh(acc: seq<Prop>, props: seq<Prop>)
    requires DistinctKeys(acc + props)
    ensures FreshKeys(acc, props)
    decreases |props|
  {
    if |props| > 0 {
      NotInKeys(acc, props);
      assert (acc + [props[0]]) + props[1..] == acc + props;
      DistinctKeysFresh(acc + [props[0]], props[1..]);
    }
  }

  /** With `acc + props` keys distinct, the first key of `props` is new to `acc`. */
  lemma NotInKeys(acc: seq<Prop>, props: seq<Prop>)
    requires |props| > 0 && DistinctKeys(acc + props)
    ensures props[0].key !in Keys(acc)
  {
    forall i | 0 <= i < |acc| ensures acc[i].key != props[0].key {
      assert (acc + props)[i] == acc[i] && (acc + props)[|acc|] == props[0];
    }
    KeysWithout(acc, props[0].key);
  }

  /** Assigning a key already present overwrites its first occurrence in
      place and leaves every other entry where it was. */
  lemma {:induction false} AssignInPlace(props: seq<Prop>, i: nat, value: Option<JsonNode>)
    requires i < |props| && forall j | 0 <= j < i :: props[j].key != props[i].key
    ensures Assign(props, props[i].key, value) == props[i := Prop(props[i].key, value)]
    decreases i
  {
    if i > 0 {
      AssignInPlace(props[1..], i - 1, value);
      assert props[1..][i - 1 := Prop(props[i].key, value)] == props[i := Prop(props[i].key, value)][1..];
    }
  }

  /** A repeated name overwrites: when the object read so far already has
      the key, its value is replaced at the key's first position, the length
      stays the same and the loop goes on from after the value. */
  lemma RepeatedKeyOverwrites(ts: seq<Token>, pos: nat, acc: seq<Prop>, i: nat)
    requires pos < |ts| && i < |acc| && ts[pos] == PropertyName(acc[i].key)
    requires forall j | 0 <= j < i :: acc[j].key != acc[i].key
    requires ReadTree(ts, pos + 1).Success?
    ensures var (v, next) := ReadTree(ts, pos + 1).value;
      ReadTreeProps(ts, pos, acc) == ReadTreeProps(ts, next, acc[i := Prop(acc[i].key, v)])
  {
    AssignInPlace(acc, i, ReadTree(ts, pos + 1).value.0);
  }

  /** Only `ArrayEnd` ends an array: a `Null` anywhere in it is kept as an
      element and the loop goes on after it. */
  lemma NullItemKept(ts: seq<Token>, pos: nat, acc: seq<Option<JsonNode>>)
    requires pos < |ts|
    ensures ts[pos].Null? ==> ReadTreeItems(ts, pos, acc) == ReadTreeItems(ts, pos + 1, acc + [None])
    ensures ts[pos].ArrayEnd? ==> ReadTreeItems(ts, pos, acc) == Success((Some(JArray(acc)), pos + 1))
  {
  }
}

/**
 * The dotted-key helpers of src/utils/index.ts: getValueByKey,
 * createObjFromKey and setValueByKey.
 *
 * A JavaScript object is a heap object (class JsObject) holding its own
 * properties as a map, so that setValueByKey can change the caller's object
 * and the objects nested in it in place, through whatever aliases they have.
 * A property value is undefined, null, another primitive, or a reference.
 */
module KeyPaths {
  import opened Wrappers

  // --------------------------------------------------------- key.split('.')

  /** key.split('.'): the pieces between dots, empty pieces included. */
  function Split(s: string): (parts: seq<string>)
    ensures |parts| >= 1
    ensures forall p :: p in parts ==> '.' !in p
  {
    if s == [] then [""]
    else
      var rest := Split(s[1..]);
      if s[0] == '.' then [""] + rest
      else [[s[0]] + rest[0]] + rest[1..]
  }

  /** parts.join('.'). */
  function Join(parts: seq<string>): string
    requires |parts| >= 1
  {
    if |parts| == 1 then parts[0] else parts[0] + "." + Join(parts[1..])
  }

  /** Joining the pieces of a split gives the key back. */
  lemma {:induction false} JoinSplit(s: string)
    ensures Join(Split(s)) == s
  {
    if s != [] {
      JoinSplit(s[1..]);
      var rest := Split(s[1..]);
      if s[0] != '.' && |rest| > 1 {
        assert Join([[s[0]] + rest[0]] + rest[1..]) == [s[0]] + rest[0] + "." + Join(rest[1..]);
      }
    }
  }

  /** Splitting dot-free pieces joined by dots gives the pieces back. */
  lemma {:induction false} SplitJoin(parts: seq<string>)
    requires |parts| >= 1 && forall p :: p in parts ==> '.' !in p
    ensures Split(Join(parts)) == parts
  {
    if |parts| == 1 {
      SplitDotFree(parts[0]);
    } else {
      SplitJoin(parts[1..]);
      SplitCons(parts[0], Join(parts[1..]));
    }
  }

  /** A dot-free string splits into itself alone. */
  lemma {:induction false} SplitDotFree(s: string)
    requires '.' !in s
    ensures Split(s) == [s]
  {
    if s != [] {
      assert '.' !in s[1..] by {
        assert forall c :: c in s[1..] ==> c in s;
      }
      SplitDotFree(s[1..]);
      assert [s[0]] + s[1..] == s;
    }
  }

  /** Splitting a dot-free head, a dot and a tail. */
  lemma {:induction false} SplitCons(head: string, tail: string)
    requires '.' !in head
    ensures Split(head + "." + tail) == [head] + Split(tail)
  {
    if head == [] {
      assert head + "." + tail == ['.'] + tail;
    } else {
      var whole := head + "." + tail;
      assert whole[0] == head[0] && whole[1..] == head[1..] + "." + tail;
      assert '.' !in head[1..] by {
        assert forall c :: c in head[1..] ==> c in head;
      }
      SplitCons(head[1..], tail);
      var rest := Split(whole[1..]);
      assert rest == [head[1..]] + Split(tail);
      assert Split(whole) == [[head[0]] + rest[0]] + rest[1..];
      assert [head[0]] + head[1..] == head;
    }
  }

  // ------------------------------------------------------ objects and values

  class JsObject {
    var props: map<string, Value>

    /** `{}` */
    constructor ()
      ensures props == map[]
    {
      props := map[];
    }
  }

  /** A JavaScript value; a primitive other than undefined and null is kept as its literal text. */
  datatype Value = Undefined | Null | Prim(literal: string) | Ref(obj: JsObject)

  /** The value stored under k in a property map, undefined when there is none. */
  function Lookup(props: map<string, Value>, k: string): Value {
    if k in props then props[k] else Undefined
  }

  /** o[k]: the own property, or undefined when there is none. */
  function Get(o: JsObject, k: string): Value
    reads o
  {
    Lookup(o.props, k)
  }

  /** The property slot itself: absent, or present with its value. */
  function Slot(o: JsObject, k: string): Option<Value>
    reads o
  {
    if k in o.props then Some(o.props[k]) else None
  }

  /**
   * v[k] for a value in hand: None for the TypeError that reading a
   * property of undefined or null throws; undefined on another primitive.
   */
  function Member(v: Value, k: string): Option<Value>
    reads if v.Ref? then {v.obj} else {}
  {
    match v
    case Undefined => None
    case Null => None
    case Prim(_) => Some(Undefined)
    case Ref(o) => Some(Get(o, k))
  }

  /** Reads prefix + k for each k of keys in turn, starting from v; None if a read throws. */
  ghost function Walk(v: Value, keys: seq<string>, prefix: string): Option<Value>
    reads *
    decreases |keys|
  {
    if keys == [] then Some(v)
    else match Member(v, prefix + keys[0])
      case None => None
      case Some(w) => Walk(w, keys[1..], prefix)
  }

  /** What getValueByKey(obj, key, prefix) returns, None standing for the TypeError it throws. */
  ghost function ValueByKey(obj: Value, key: string, prefix: string): Option<Value>
    reads *
  {
    if key == "" then Some(obj) else Walk(obj, Split(key), prefix)
  }

  /** Following a chain whose links and last slot are known gives the last slot's value. */
  lemma {:induction false} WalkAlongChain(chain: seq<JsObject>, keys: seq<string>, value: Value)
    requires |chain| == |keys| >= 1
    requires forall i :: 0 <= i < |keys| - 1 ==> Get(chain[i], keys[i]) == Ref(chain[i + 1])
    requires Get(chain[|keys| - 1], keys[|keys| - 1]) == value
    ensures Walk(Ref(chain[0]), keys, "") == Some(value)
  {
    assert "" + keys[0] == keys[0];
    if |keys| == 1 {
      assert keys[1..] == [];
    } else {
      WalkAlongChain(chain[1..], keys[1..], value);
    }
  }

  // ----------------------------------------------------------- getValueByKey

  /** getValueByKey(obj, key, prefix); an absent key is the empty string. */
  method GetValueByKey(obj: Value, key: string, prefix: string) returns (r: Option<Value>)
    ensures r == ValueByKey(obj, key, prefix)
  {
    if key == "" {
      return Some(obj);
    }
    var keys := Split(key);
    var result := obj;
    for i := 0 to |keys|
      invariant Walk(obj, keys, prefix) == Walk(result, keys[i..], prefix)
    {
      assert keys[i..][1..] == keys[i + 1..];
      var next := Member(result, prefix + keys[i]);
      if next.None? {
        return None;
      }
      result := next.value;
    }
    assert keys[|keys|..] == [];
    return Some(result);
  }

  // --------------------------------------------------------- createObjFromKey

  /**
   * createObjFromKey(value, key): for a non-empty key, a chain of new
   * objects, one per piece of the key, each holding only the next, and the
   * last holding only value. `chain` lists the new objects.
   */
  method CreateObjFromKey(value: Value, key: string) returns (r: Value, ghost chain: seq<JsObject>)
    ensures key == "" ==> r == value && chain == []
    ensures key != "" ==>
      var keys := Split(key);
      var n := |keys|;
      |chain| == n && r == Ref(chain[0]) &&
      (forall i :: 0 <= i < n ==> fresh(chain[i])) &&
      (forall i, j :: 0 <= i < j < n ==> chain[i] != chain[j]) &&
      (forall i :: 0 <= i < n - 1 ==> chain[i].props == map[keys[i] := Ref(chain[i + 1])]) &&
      chain[n - 1].props == map[keys[n - 1] := value]
    ensures key != "" ==> ValueByKey(r, key, "") == Some(value)
  {
    if key == "" {
      return value, [];
    }
    var keys := Split(key);
    var n := |keys|;
    var root := new JsObject();
    var cur := root;
    chain := [root];
    for i := 0 to n - 1
      invariant |chain| == i + 1 && chain[0] == root && chain[i] == cur
      invariant forall j :: 0 <= j <= i ==> fresh(chain[j])
      invariant forall j, l :: 0 <= j < l <= i ==> chain[j] != chain[l]
      invariant forall j :: 0 <= j < i ==> chain[j].props == map[keys[j] := Ref(chain[j + 1])]
      invariant cur.props == map[]
    {
      var next := new JsObject();
      cur.props := cur.props[keys[i] := Ref(next)];
      cur := next;
      chain := chain + [next];
    }
    cur.props := cur.props[keys[n - 1] := value];
    r := Ref(root);
    WalkAlongChain(chain, keys, value);
  }

  // ------------------------------------------------------------ setValueByKey

  /**
   * Walking from o along keys[i], ..., keys[m - 1] through objects of heap,
   * writing `{}` where a value is undefined or null, never lands on a
   * primitive (assigning a property of a primitive throws in strict mode).
   */
  ghost predicate Settable(heap: set<JsObject>, o: JsObject, keys: seq<string>, i: nat, m: nat)
    reads heap
  {
    SettableIn(Snapshot(heap), o, keys, i, m)
  }

  /** Settable, over the properties `objs` gives each object. */
  ghost predicate SettableIn(objs: map<JsObject, map<string, Value>>, o: JsObject, keys: seq<string>, i: nat, m: nat)
    decreases m - i
  {
    o in objs &&
    (m <= i ||
     (i < |keys| &&
      match Lookup(objs[o], keys[i])
      case Ref(p) => SettableIn(objs, p, keys, i + 1, m)
      case Prim(_) => false
      case _ => true))
  }

  /** The properties of each object of heap. */
  ghost function Snapshot(heap: set<JsObject>): (s: map<JsObject, map<string, Value>>)
    reads heap
    ensures forall o :: o in heap ==> o in s && s[o] == o.props
    ensures forall o :: o in s ==> o in heap
  {
    map o | o in heap :: o.props
  }

  /** The last write of the path does not overwrite one of the path's own links (possible only in a cyclic object graph). */
  ghost predicate LastWriteKeepsLinks(chain: seq<JsObject>, keys: seq<string>)
    requires |chain| == |keys| >= 1
  {
    forall i :: 0 <= i < |keys| - 1 ==> !(chain[i] == chain[|keys| - 1] && keys[i] == keys[|keys| - 1])
  }

  /**
   * setValueByKey(target, value, key). heap is the set of objects that
   * exist. For a key, `keys` are its pieces and `chain` lists the objects the
   * path goes through, target first; the first `reused + 1` of them existed
   * before, and the rest are the `{}` created where the path met undefined
   * or null.
   */
  method SetValueByKey(target: Value, value: Value, key: string, ghost heap: set<JsObject>)
    returns (r: Value, ghost keys: seq<string>, ghost chain: seq<JsObject>, ghost reused: nat)
    requires key != "" ==> target.Ref? && Settable(heap, target.obj, Split(key), 0, |Split(key)| - 1)
    modifies heap
    // no key: a new object with target's properties, then value's; nothing else changes
    ensures key == "" ==>
      r.Ref? && fresh(r.obj) && keys == [] && chain == [] &&
      (forall o :: o in heap ==> o.props == old(o.props)) &&
      r.obj.props == OwnProps(target) + OwnProps(value)
    // a key: target itself comes back
    ensures key != "" ==>
      keys == Split(key) && r == target && |chain| == |keys| && chain[0] == target.obj && reused < |keys|
    // existing objects on the path are reused, as they were linked
    ensures key != "" ==>
      (forall j :: 0 <= j <= reused ==> chain[j] in heap) &&
      (forall j :: 0 <= j < reused ==> old(Get(chain[j], keys[j])) == Ref(chain[j + 1]))
    // `{}` is created only where the path meets undefined or null, and holds only the path
    ensures key != "" && reused < |keys| - 1 ==>
      (old(Get(chain[reused], keys[reused])) == Undefined || old(Get(chain[reused], keys[reused])) == Null) &&
      (forall j :: reused < j < |keys| ==> fresh(chain[j])) &&
      (forall j :: reused < j < |keys| - 1 ==> chain[j].props == map[keys[j] := Ref(chain[j + 1])]) &&
      chain[|keys| - 1].props == map[keys[|keys| - 1] := value]
    // afterwards the path leads to value
    ensures key != "" ==>
      Slot(chain[|keys| - 1], keys[|keys| - 1]) == Some(value) &&
      forall j :: 0 <= j < |keys| - 1 && !(chain[j] == chain[|keys| - 1] && keys[j] == keys[|keys| - 1]) ==>
        Get(chain[j], keys[j]) == Ref(chain[j + 1])
    // only the slot where new objects hang and the slot of the last write change
    ensures key != "" ==>
      forall o, k ::
        (o in heap && !(o == chain[reused] && k == keys[reused]) && !(o == chain[|keys| - 1] && k == keys[|keys| - 1])) ==>
        Slot(o, k) == old(Slot(o, k))
    // the round trip with getValueByKey
    ensures key != "" && LastWriteKeepsLinks(chain, keys) ==> ValueByKey(target, key, "") == Some(value)
  {
    if key == "" {
      var merged := new JsObject();
      merged.props := OwnProps(target) + OwnProps(value);
      return Ref(merged), [], [], 0;
    }
    var parts := Split(key);
    keys := parts;
    chain, reused := SetPath(target.obj, parts, value, heap);
    r := target;
  }

  /**
   * The key branch of setValueByKey, over the pieces of the key: walk the
   * path creating `{}` where needed, then store value under the last piece.
   */
  method SetPath(root: JsObject, keys: seq<string>, value: Value, ghost heap: set<JsObject>)
    returns (ghost chain: seq<JsObject>, ghost reused: nat)
    requires |keys| >= 1 && Settable(heap, root, keys, 0, |keys| - 1)
    modifies heap
    ensures |chain| == |keys| && chain[0] == root && reused < |keys|
    ensures forall j :: 0 <= j <= reused ==> chain[j] in heap
    ensures forall j :: 0 <= j < reused ==> old(Get(chain[j], keys[j])) == Ref(chain[j + 1])
    ensures reused < |keys| - 1 ==>
      (old(Get(chain[reused], keys[reused])) == Undefined || old(Get(chain[reused], keys[reused])) == Null) &&
      (forall j :: reused < j < |keys| ==> fresh(chain[j])) &&
      (forall j :: reused < j < |keys| - 1 ==> chain[j].props == map[keys[j] := Ref(chain[j + 1])]) &&
      chain[|keys| - 1].props == map[keys[|keys| - 1] := value]
    ensures Slot(chain[|keys| - 1], keys[|keys| - 1]) == Some(value)
    ensures forall j :: 0 <= j < |keys| - 1 && !(chain[j] == chain[|keys| - 1] && keys[j] == keys[|keys| - 1]) ==>
      Get(chain[j], keys[j]) == Ref(chain[j + 1])
    ensures forall o, k ::
      (o in heap && !(o == chain[reused] && k == keys[reused]) && !(o == chain[|keys| - 1] && k == keys[|keys| - 1])) ==>
      Slot(o, k) == old(Slot(o, k))
    ensures LastWriteKeepsLinks(chain, keys) ==> Walk(Ref(root), keys, "") == Some(value)
  {
    var cur;
    cur, chain, reused := Descend(root, keys, |keys| - 1, heap);
    // cur[keys[keys.length - 1]] = value
    label Descended:
    SetLast(cur, chain, keys, value);
    forall o, k | o in heap && !(o == chain[reused] && k == keys[reused]) && !(o == cur && k == keys[|keys| - 1])
      ensures Slot(o, k) == old(Slot(o, k))
    {
      assert Slot(o, k) == old@Descended(Slot(o, k));
    }
  }

  /**
   * The loop of setValueByKey over the first m keys: cur = cur[k] ??= {}.
   * `chain` lists the objects passed, root first; the first `reused + 1`
   * existed before, the rest are new, created where the path met undefined
   * or null.
   */
  method Descend(root: JsObject, keys: seq<string>, m: nat, ghost heap: set<JsObject>)
    returns (cur: JsObject, ghost chain: seq<JsObject>, ghost reused: nat)
    requires m < |keys| && Settable(heap, root, keys, 0, m)
    modifies heap
    ensures reused <= m && |chain| == m + 1 && chain[0] == root && chain[m] == cur
    ensures forall j :: 0 <= j <= reused ==> chain[j] in heap
    ensures forall j :: 0 <= j < reused ==> old(Get(chain[j], keys[j])) == Ref(chain[j + 1])
    ensures forall j :: 0 <= j < m ==> Get(chain[j], keys[j]) == Ref(chain[j + 1])
    ensures forall o, k :: o in heap && !(o == chain[reused] && k == keys[reused]) ==> Slot(o, k) == old(Slot(o, k))
    ensures reused < m ==>
      (old(Get(chain[reused], keys[reused])) == Undefined || old(Get(chain[reused], keys[reused])) == Null) &&
      (forall j :: reused < j <= m ==> fresh(chain[j])) &&
      (forall j :: reused < j < m ==> chain[j].props == map[keys[j] := Ref(chain[j + 1])]) &&
      (forall j :: reused <= j < m ==> chain[j] != cur) &&
      cur.props == map[]
  {
    ghost var before := Snapshot(heap);
    cur := root;
    chain := [cur];
    reused := 0;
    var i := 0;
    while i < m
      invariant DescendInv(heap, before, keys, m, chain, reused, i)
      invariant chain[i] == cur && chain[0] == root
      invariant forall j :: reused < j <= i ==> fresh(chain[j])
    {
      // cur = cur[keys[i]] ??= {}
      var next;
      next, reused := Advance(cur, keys, m, heap, before, chain, reused, i);
      cur := next;
      chain := chain + [next];
      i := i + 1;
    }
  }

  /**
   * What the loop of setValueByKey keeps after i rounds, before being the
   * properties of the objects of heap when it started: chain[0..i] are the
   * objects passed; up to chain[reused] they are objects of heap linked as
   * before, beyond it they are new; only chain[reused] and new objects have
   * changed.
   */
  ghost predicate DescendInv(heap: set<JsObject>, before: map<JsObject, map<string, Value>>,
                             keys: seq<string>, m: nat, chain: seq<JsObject>, reused: nat, i: nat)
    reads *
  {
    before.Keys == heap &&
    reused <= i <= m < |keys| && |chain| == i + 1 &&
    (forall j :: 0 <= j <= reused ==> chain[j] in heap) &&
    (forall j :: 0 <= j < reused ==> Lookup(before[chain[j]], keys[j]) == Ref(chain[j + 1])) &&
    (forall j :: 0 <= j < i ==> Get(chain[j], keys[j]) == Ref(chain[j + 1])) &&
    (reused == i ==>
      SettableIn(before, chain[i], keys, i, m) && forall o :: o in heap ==> o.props == before[o]) &&
    (reused < i ==>
      (Lookup(before[chain[reused]], keys[reused]) == Undefined || Lookup(before[chain[reused]], keys[reused]) == Null) &&
      (forall o :: o in heap && o != chain[reused] ==> o.props == before[o]) &&
      chain[reused].props == before[chain[reused]][keys[reused] := Ref(chain[reused + 1])] &&
      (forall j :: reused < j <= i ==> chain[j] !in heap) &&
      (forall j :: reused < j < i ==> chain[j].props == map[keys[j] := Ref(chain[j + 1])]) &&
      (forall j :: reused <= j < i ==> chain[j] != chain[i]) &&
      chain[i].props == map[])
  }

  /** One round of the loop, cur = cur[keys[i]] ??= {}, keeps DescendInv. */
  method Advance(cur: JsObject, keys: seq<string>, m: nat, ghost heap: set<JsObject>,
                 ghost before: map<JsObject, map<string, Value>>, ghost chain: seq<JsObject>, ghost reused: nat, i: nat)
    returns (next: JsObject, ghost reused': nat)
    requires DescendInv(heap, before, keys, m, chain, reused, i) && i < m && chain[i] == cur
    modifies cur
    ensures DescendInv(heap, before, keys, m, chain + [next], reused', i + 1)
    ensures reused' == i + 1 || (reused' == reused && fresh(next))
  {
    var found := Get(cur, keys[i]);
    if found.Ref? {
      next := found.obj;
      reused' := i + 1;
      FollowLink(heap, before, keys, m, chain, reused, i);
    } else {
      next := Hang(cur, keys, m, heap, before, chain, reused, i);
      reused' := reused;
    }
  }

  /**
   * A round that finds undefined or null under keys[i] stores a new `{}`
   * there and moves on to it; the existing objects other than chain[reused],
   * where the new objects hang, still have their properties from before the
   * loop.
   */
  method Hang(cur: JsObject, keys: seq<string>, m: nat, ghost heap: set<JsObject>,
              ghost before: map<JsObject, map<string, Value>>, ghost chain: seq<JsObject>, ghost reused: nat, i: nat)
    returns (next: JsObject)
    requires DescendInv(heap, before, keys, m, chain, reused, i) && i < m && chain[i] == cur
    requires !Get(cur, keys[i]).Ref?
    modifies cur
    ensures fresh(next) && next !in heap && next.props == map[]
    ensures forall j :: 0 <= j < i ==> Get(chain[j], keys[j]) == Ref(chain[j + 1])
    ensures Get(cur, keys[i]) == Ref(next)
    ensures Lookup(before[chain[reused]], keys[reused]) == Undefined || Lookup(before[chain[reused]], keys[reused]) == Null
    ensures forall o :: o in heap && o != chain[reused] ==> o.props == before[o]
    ensures chain[reused].props == before[chain[reused]][keys[reused] := Ref((chain + [next])[reused + 1])]
    ensures forall j :: reused < j < i ==> chain[j].props == map[keys[j] := Ref(chain[j + 1])]
    ensures reused < i ==> cur.props == map[keys[i] := Ref(next)]
  {
    ghost var found := Get(cur, keys[i]);
    next := new JsObject();
    cur.props := cur.props[keys[i] := Ref(next)];
    if reused == i {
      assert Lookup(before[cur], keys[i]) == found;
    } else {
      assert cur !in heap;
    }
  }

  /** A round that finds an object already under keys[i] only happens while every object passed is reused, and moves on to it. */
  lemma FollowLink(heap: set<JsObject>, before: map<JsObject, map<string, Value>>,
                   keys: seq<string>, m: nat, chain: seq<JsObject>, reused: nat, i: nat)
    requires DescendInv(heap, before, keys, m, chain, reused, i) && i < m && Get(chain[i], keys[i]).Ref?
    ensures reused == i && DescendInv(heap, before, keys, m, chain + [Get(chain[i], keys[i]).obj], i + 1, i + 1)
  {
    var next := Get(chain[i], keys[i]).obj;
    assert Lookup(before[chain[i]], keys[i]) == Ref(next);
    assert SettableIn(before, next, keys, i + 1, m);
  }

  /**
   * cur[keys[keys.length - 1]] = value at the end of a linked path: the
   * links survive unless this very write overwrites one of them.
   */
  method SetLast(last: JsObject, ghost chain: seq<JsObject>, keys: seq<string>, value: Value)
    requires |chain| == |keys| >= 1 && last == chain[|keys| - 1]
    requires forall j :: 0 <= j < |keys| - 1 ==> Get(chain[j], keys[j]) == Ref(chain[j + 1])
    modifies last
    ensures last.props == old(last.props)[keys[|keys| - 1] := value]
    ensures forall j :: 0 <= j < |keys| - 1 && !(chain[j] == chain[|keys| - 1] && keys[j] == keys[|keys| - 1]) ==>
      Get(chain[j], keys[j]) == Ref(chain[j + 1])
    ensures LastWriteKeepsLinks(chain, keys) ==> Walk(Ref(chain[0]), keys, "") == Some(value)
  {
    var n := |keys|;
    last.props := last.props[keys[n - 1] := value];
    forall j | 0 <= j < n - 1 && !(chain[j] == last && keys[j] == keys[n - 1])
      ensures Get(chain[j], keys[j]) == Ref(chain[j + 1])
    {
      assert old(Get(chain[j], keys[j])) == Ref(chain[j + 1]);
    }
    if LastWriteKeepsLinks(chain, keys) {
      WalkAlongChain(chain, keys, value);
    }
  }

  /** The own properties Object.assign copies from a source; undefined, null and other primitives give none. */
  function OwnProps(v: Value): map<string, Value>
    reads if v.Ref? then {v.obj} else {}
  {
    if v.Ref? then v.obj.props else map[]
  }
}

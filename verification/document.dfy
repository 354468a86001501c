/** The nested document the KiCad exporter builds before it is rendered as an
    s-expression: dictionaries, lists, tuples, `multi_key_dict`s (an ordered
    list of items that may repeat a key), `None` and scalars.
    `Clean` is `_clean_none_and_empty`: it drops every `None`, every container
    that becomes empty, and every tuple left with a single element. */
module Document {

  datatype Entry = Entry(key: string, value: Doc)

  datatype Doc =
    | Null                                  // Python None
    | Str(s: string)
    | Int(i: int)
    | Dict(entries: seq<Entry>)             // a dict, keys in insertion order
    | List(items: seq<Doc>)
    | Tuple(items: seq<Doc>)
    | Multi(items: seq<Doc>)                // sexp.multi_key_dict: its tuple list

  /** No key occurs twice in any dictionary, at any depth: what a Python
      `dict` guarantees. */
  predicate WellFormed(d: Doc)
  {
    match d
    case Dict(es) =>
      (forall i, j :: 0 <= i < j < |es| ==> es[i].key != es[j].key) &&
      forall i :: 0 <= i < |es| ==> WellFormed(es[i].value)
    case List(xs) => forall i :: 0 <= i < |xs| ==> WellFormed(xs[i])
    case Tuple(xs) => forall i :: 0 <= i < |xs| ==> WellFormed(xs[i])
    case Multi(xs) => forall i :: 0 <= i < |xs| ==> WellFormed(xs[i])
    case _ => true
  }

  /** `_clean_none_and_empty(obj)` */
  function Clean(d: Doc): Doc
  {
    match d
    case Null => Null
    case Str(_) => d
    case Int(_) => d
    case Dict(es) =>
      var kept := CleanEntries(es);
      if kept == [] then Null else Dict(kept)
    case List(xs) =>
      var kept := CleanItems(xs);
      if kept == [] then Null else List(kept)
    case Tuple(xs) =>
      var kept := CleanItems(xs);
      if |kept| <= 1 then Null else Tuple(kept)
    case Multi(xs) =>
      var kept := CleanItems(xs);
      if kept == [] then Null else Multi(kept)
  }

  /** `filter(lambda x: x is not None, map(_clean_none_and_empty, xs))` */
  function CleanItems(xs: seq<Doc>): seq<Doc>
  {
    if xs == [] then []
    else
      var c := Clean(xs[0]);
      (if c == Null then [] else [c]) + CleanItems(xs[1..])
  }

  /** The entries of a cleaned dictionary: each value cleaned, the entries whose
      value cleaned to `None` deleted, the others kept in place. */
  function CleanEntries(es: seq<Entry>): seq<Entry>
  {
    if es == [] then []
    else
      var c := Clean(es[0].value);
      (if c == Null then [] else [Entry(es[0].key, c)]) + CleanEntries(es[1..])
  }

  /** A document with nothing left to clean: no `None` anywhere, no empty
      container, no tuple shorter than two. */
  predicate Pruned(d: Doc)
  {
    match d
    case Null => false
    case Str(_) => true
    case Int(_) => true
    case Dict(es) => es != [] && forall i :: 0 <= i < |es| ==> Pruned(es[i].value)
    case List(xs) => xs != [] && forall i :: 0 <= i < |xs| ==> Pruned(xs[i])
    case Tuple(xs) => |xs| >= 2 && forall i :: 0 <= i < |xs| ==> Pruned(xs[i])
    case Multi(xs) => xs != [] && forall i :: 0 <= i < |xs| ==> Pruned(xs[i])
  }

  /** Whatever survives cleaning is pruned: cleaning leaves no `None`, no empty
      container and no one-element tuple at any depth. */
  lemma {:induction false} CleanIsPruned(d: Doc)
    ensures Clean(d) == Null || Pruned(Clean(d))
  {
    match d
    case Null =>
    case Str(_) =>
    case Int(_) =>
    case Dict(es) => CleanEntriesArePruned(es);
    case List(xs) => CleanItemsArePruned(xs);
    case Tuple(xs) => CleanItemsArePruned(xs);
    case Multi(xs) => CleanItemsArePruned(xs);
  }

  lemma {:induction false} CleanItemsArePruned(xs: seq<Doc>)
    ensures forall i :: 0 <= i < |CleanItems(xs)| ==> Pruned(CleanItems(xs)[i])
  {
    if xs != [] {
      CleanIsPruned(xs[0]);
      CleanItemsArePruned(xs[1..]);
    }
  }

  lemma {:induction false} CleanEntriesArePruned(es: seq<Entry>)
    ensures forall i :: 0 <= i < |CleanEntries(es)| ==> Pruned(CleanEntries(es)[i].value)
  {
    if es != [] {
      CleanIsPruned(es[0].value);
      CleanEntriesArePruned(es[1..]);
    }
  }

  /** A pruned document is left unchanged by cleaning. */
  lemma {:induction false} CleanKeepsPruned(d: Doc)
    requires Pruned(d)
    ensures Clean(d) == d
  {
    match d
    case Str(_) =>
    case Int(_) =>
    case Dict(es) => CleanEntriesKeepPruned(es);
    case List(xs) => CleanItemsKeepPruned(xs);
    case Tuple(xs) => CleanItemsKeepPruned(xs);
    case Multi(xs) => CleanItemsKeepPruned(xs);
  }

  lemma {:induction false} CleanItemsKeepPruned(xs: seq<Doc>)
    requires forall i :: 0 <= i < |xs| ==> Pruned(xs[i])
    ensures CleanItems(xs) == xs
  {
    if xs != [] {
      CleanKeepsPruned(xs[0]);
      CleanItemsKeepPruned(xs[1..]);
      assert xs == [xs[0]] + xs[1..];
    }
  }

  lemma {:induction false} CleanEntriesKeepPruned(es: seq<Entry>)
    requires forall i :: 0 <= i < |es| ==> Pruned(es[i].value)
    ensures CleanEntries(es) == es
  {
    if es != [] {
      CleanKeepsPruned(es[0].value);
      CleanEntriesKeepPruned(es[1..]);
      assert es == [es[0]] + es[1..];
    }
  }

  /** The entry `key: d` when `d` is not `None`, else nothing. */
  function Present(key: string, d: Doc): seq<Entry>
  {
    if d == Null then [] else [Entry(key, d)]
  }

  /** Cleaning a dictionary works entry by entry, in order. */
  lemma CleanEntriesFrom(es: seq<Entry>, i: nat)
    requires i < |es|
    ensures CleanEntries(es[i..]) == Present(es[i].key, Clean(es[i].value)) + CleanEntries(es[i + 1..])
  {
    assert es[i..][1..] == es[i + 1..];
  }

  /** Cleaning a dictionary that starts with `e`. */
  lemma CleanEntriesCons(e: Entry, rest: seq<Entry>)
    ensures CleanEntries([e] + rest) == Present(e.key, Clean(e.value)) + CleanEntries(rest)
  {
    assert ([e] + rest)[1..] == rest;
  }

  /** A one-entry dictionary cleans to its entry with the value cleaned, or
      to `None` when the value cleans to `None`. */
  lemma CleanSingleton(key: string, d: Doc)
    ensures Clean(Dict([Entry(key, d)])) == (if Clean(d) == Null then Null else Dict([Entry(key, Clean(d))]))
  {
    CleanEntriesFrom([Entry(key, d)], 0);
    assert [Entry(key, d)][0..] == [Entry(key, d)] && [Entry(key, d)][1..] == [];
  }

  /** A container whose every member cleans to `None` is left with nothing. */
  lemma {:induction false} CleanItemsAllNull(xs: seq<Doc>)
    requires forall i :: 0 <= i < |xs| ==> Clean(xs[i]) == Null
    ensures CleanItems(xs) == [] && Clean(Multi(xs)) == Null
  {
    if xs != [] {
      CleanItemsAllNull(xs[1..]);
    }
  }

  lemma {:induction false} CleanEntriesAllNull(es: seq<Entry>)
    requires forall i :: 0 <= i < |es| ==> Clean(es[i].value) == Null
    ensures CleanEntries(es) == [] && Clean(Dict(es)) == Null
  {
    if es != [] {
      CleanEntriesAllNull(es[1..]);
    }
  }

  /** Cleaning twice is the same as cleaning once. */
  lemma CleanIdempotent(d: Doc)
    ensures Clean(Clean(d)) == Clean(d)
  {
    CleanIsPruned(d);
    if Clean(d) != Null {
      CleanKeepsPruned(Clean(d));
    }
  }

  /** The keys of a dictionary's entries, in order. */
  function Keys(es: seq<Entry>): (ks: seq<string>)
    ensures |ks| == |es| && forall i :: 0 <= i < |es| ==> ks[i] == es[i].key
  {
    if es == [] then [] else [es[0].key] + Keys(es[1..])
  }

  /** `del d[k]`: the entry with key `k` is removed. */
  function DelKey(es: seq<Entry>, k: string): (r: seq<Entry>)
    ensures |r| <= |es|
  {
    if es == [] then []
    else if es[0].key == k then es[1..]
    else [es[0]] + DelKey(es[1..], k)
  }

  /** `d[k] = v`: an existing key keeps its place, a new key goes last. */
  function SetKey(es: seq<Entry>, k: string, v: Doc): (r: seq<Entry>)
    ensures |r| >= |es|
  {
    if es == [] then [Entry(k, v)]
    else if es[0].key == k then [Entry(k, v)] + es[1..]
    else [es[0]] + SetKey(es[1..], k, v)
  }

  /** Deleting a key that first occurs at the head of `t` removes that head. */
  lemma {:induction false} DelKeyAfter(a: seq<Entry>, t: seq<Entry>, k: string)
    requires t != [] && t[0].key == k
    requires forall j :: 0 <= j < |a| ==> a[j].key != k
    ensures DelKey(a + t, k) == a + t[1..]
  {
    if a != [] {
      var s := a + t;
      assert s[0] == a[0] && s[1..] == a[1..] + t;
      DelKeyAfter(a[1..], t, k);
      assert DelKey(s, k) == [a[0]] + DelKey(a[1..] + t, k);
      assert a + t[1..] == [a[0]] + (a[1..] + t[1..]);
    }
  }

  /** Setting a key that first occurs at the head of `t` replaces that head. */
  lemma {:induction false} SetKeyAfter(a: seq<Entry>, t: seq<Entry>, k: string, v: Doc)
    requires t != [] && t[0].key == k
    requires forall j :: 0 <= j < |a| ==> a[j].key != k
    ensures SetKey(a + t, k, v) == a + [Entry(k, v)] + t[1..]
  {
    if a != [] {
      var s := a + t;
      assert s[0] == a[0] && s[1..] == a[1..] + t;
      SetKeyAfter(a[1..], t, k, v);
      assert SetKey(s, k, v) == [a[0]] + SetKey(a[1..] + t, k, v);
      assert a + [Entry(k, v)] + t[1..] == [a[0]] + (a[1..] + [Entry(k, v)] + t[1..]);
    }
  }

  /** `_clean_none_and_empty` as the source runs it: a dictionary is copied
      and its entries are deleted or overwritten one at a time; lists, tuples
      and multi-key dicts are rebuilt from their cleaned, non-`None` items. */
  method CleanInPlace(d: Doc) returns (r: Doc)
    requires WellFormed(d)
    ensures r == Clean(d)
    decreases d
  {
    match d
    case Null => r := Null;
    case Str(_) => r := d;
    case Int(_) => r := d;
    case Dict(es) =>
      var newObj := CleanDict(d, es);
      r := if newObj == [] then Null else Dict(newObj);
    case List(xs) =>
      var kept := CleanSeq(d, xs);
      r := if kept == [] then Null else List(kept);
    case Tuple(xs) =>
      var kept := CleanSeq(d, xs);
      r := if |kept| <= 1 then Null else Tuple(kept);
    case Multi(xs) =>
      var kept := CleanSeq(d, xs);
      r := if kept == [] then Null else Multi(kept);
  }

  /** One item of the loop in `CleanSeq`: the item, cleaned, joins the kept
      items unless it cleaned to `None`. */
  lemma CleanSeqHead(rest: seq<Doc>, kept: seq<Doc>, c: Doc)
    requires rest != [] && c == Clean(rest[0])
    ensures kept + CleanItems(rest) == (if c == Null then kept else kept + [c]) + CleanItems(rest[1..])
  {
    var p, tail := if c == Null then [] else [c], CleanItems(rest[1..]);
    assert CleanItems(rest) == p + tail;
    AppendAssoc(kept, p, tail);
    assert kept + p == (if c == Null then kept else kept + [c]);
  }

  /** The cleaned, non-`None` items of `xs`, the items of container `d`. */
  method CleanSeq(ghost d: Doc, xs: seq<Doc>) returns (kept: seq<Doc>)
    requires forall i :: 0 <= i < |xs| ==> xs[i] < d && WellFormed(xs[i])
    ensures kept == CleanItems(xs)
    decreases d, 0
  {
    kept := [];
    var rest := xs;
    while rest != []
      invariant forall i :: 0 <= i < |rest| ==> rest[i] < d && WellFormed(rest[i])
      invariant CleanItems(xs) == kept + CleanItems(rest)
      decreases |rest|
    {
      var c := CleanInPlace(rest[0]);
      CleanSeqHead(rest, kept, c);
      if c != Null {
        kept := kept + [c];
      }
      rest := rest[1..];
    }
  }

  lemma {:induction false} KeysAppend(a: seq<Entry>, e: Entry)
    ensures Keys(a + [e]) == Keys(a) + [e.key]
  {
  }

  /** No key of `rest` occurs in `done`. */
  ghost predicate Unused(rest: seq<Entry>, done: seq<Entry>)
  {
    forall j :: 0 <= j < |rest| ==> rest[j].key !in Keys(done)
  }

  /** No two entries of `es` share a key. */
  ghost predicate DistinctKeys(es: seq<Entry>)
  {
    forall p, q :: 0 <= p < q < |es| ==> es[p].key != es[q].key
  }

  /** One item of the loop in `CleanDict`: where `done` holds the cleaned
      entries before `rest`, deleting or overwriting the head of `rest` in
      `done + rest` leaves `next + rest[1..]`, the next state of the loop. */
  lemma CleanDictStep(rest: seq<Entry>, done: seq<Entry>, v: Doc) returns (next: seq<Entry>)
    requires rest != [] && DistinctKeys(rest) && Unused(rest, done)
    ensures next == done + Present(rest[0].key, v)
    ensures (if v == Null then DelKey(done + rest, rest[0].key)
             else SetKey(done + rest, rest[0].key, v)) == next + rest[1..]
    ensures DistinctKeys(rest[1..]) && Unused(rest[1..], next)
  {
    var k := rest[0].key;
    next := done + Present(k, v);
    forall j | 0 <= j < |done| ensures done[j].key != k {
      assert Keys(done)[j] == done[j].key;
    }
    if v == Null {
      DelKeyAfter(done, rest, k);
    } else {
      SetKeyAfter(done, rest, k, v);
      assert next + rest[1..] == (done + [Entry(k, v)]) + rest[1..];
    }
    KeysAppend(done, Entry(k, v));
    forall j | 0 <= j < |rest[1..]| ensures rest[1..][j].key !in Keys(next) {
      assert rest[1..][j] == rest[j + 1];
    }
  }

  /** The same step seen from `CleanEntries`: the entry kept, if any, moves
      from the part still to clean to the cleaned part. */
  lemma CleanDictHead(rest: seq<Entry>, done: seq<Entry>, v: Doc)
    requires rest != [] && v == Clean(rest[0].value)
    ensures done + CleanEntries(rest) == (done + Present(rest[0].key, v)) + CleanEntries(rest[1..])
  {
    var p, tail := Present(rest[0].key, v), CleanEntries(rest[1..]);
    assert CleanEntries(rest) == p + tail;
    AppendAssoc(done, p, tail);
  }

  lemma AppendAssoc<T>(a: seq<T>, b: seq<T>, c: seq<T>)
    ensures a + (b + c) == (a + b) + c
  {
  }

  /** The loop over a dictionary's items: `new_obj` starts as a copy; an item
      whose value cleans to `None` is deleted from it, any other is
      overwritten with the cleaned value. */
  method CleanDict(ghost d: Doc, es: seq<Entry>) returns (newObj: seq<Entry>)
    requires forall i :: 0 <= i < |es| ==> es[i].value < d && WellFormed(es[i].value)
    requires forall i, j :: 0 <= i < j < |es| ==> es[i].key != es[j].key
    ensures newObj == CleanEntries(es)
    decreases d, 0
  {
    newObj := es;
    ghost var done: seq<Entry> := [];
    var rest := es;
    while rest != []
      invariant forall i :: 0 <= i < |rest| ==> rest[i].value < d && WellFormed(rest[i].value)
      invariant DistinctKeys(rest) && Unused(rest, done)
      invariant |newObj| == |done| + |rest| && newObj[..|done|] == done && newObj[|done|..] == rest
      invariant CleanEntries(es) == done + CleanEntries(rest)
      decreases |rest|
    {
      var k := rest[0].key;
      var v := CleanInPlace(rest[0].value);
      assert newObj == done + rest;
      ghost var next := CleanDictStep(rest, done, v);
      CleanDictHead(rest, done, v);
      if v == Null {
        newObj := DelKey(newObj, k);
      } else {
        newObj := SetKey(newObj, k, v);
      }
      done := next;
      rest := rest[1..];
    }
  }
}

/** The order of the written corpus: by corpus, then content hash, then key. */
module OutputOrder {
  import opened Options
  import opened CorpusRows
  import opened CorpusDedup

  /** Lexicographic order by code point. */
  predicate StringLeq(a: string, b: string) {
    a == "" || (b != "" && (a[0] < b[0] || (a[0] == b[0] && StringLeq(a[1..], b[1..]))))
  }

  lemma {:induction false} StringLeqIsTotal(a: string, b: string)
    ensures StringLeq(a, b) || StringLeq(b, a)
  {
    if a != "" && b != "" && a[0] == b[0] {
      StringLeqIsTotal(a[1..], b[1..]);
    }
  }

  lemma {:induction false} StringLeqIsAntisymmetric(a: string, b: string)
    requires StringLeq(a, b) && StringLeq(b, a)
    ensures a == b
  {
    if a != "" {
      StringLeqIsAntisymmetric(a[1..], b[1..]);
      assert a == [a[0]] + a[1..] && b == [b[0]] + b[1..];
    }
  }

  lemma {:induction false} StringLeqIsTransitive(a: string, b: string, c: string)
    requires StringLeq(a, b) && StringLeq(b, c)
    ensures StringLeq(a, c)
  {
    if a != "" && a[0] == b[0] == c[0] {
      StringLeqIsTransitive(a[1..], b[1..], c[1..]);
    }
  }

  /** The order is decided at the first difference, where a smaller character comes first and a prefix before all. */
  lemma {:induction false} FirstDifferenceDecides(a: string, b: string, n: nat)
    requires n <= |a| && n <= |b| && a[..n] == b[..n]
    ensures n == |a| ==> StringLeq(a, b)
    ensures n == |b| < |a| ==> !StringLeq(a, b)
    ensures n < |a| && n < |b| && a[n] != b[n] ==> (StringLeq(a, b) <==> a[n] < b[n])
  {
    if n > 0 {
      assert a[0] == a[..n][0] == b[..n][0] == b[0];
      assert a[1..][..n - 1] == a[..n][1..] && b[1..][..n - 1] == b[..n][1..];
      FirstDifferenceDecides(a[1..], b[1..], n - 1);
    }
  }

  /** Whether the order of two hashes is defined: equal ones, two texts or two numbers. */
  predicate ShaComparable(a: Sha, b: Sha) {
    a == b || (a.ShaText? && b.ShaText?) || (a.ShaNumber? && b.ShaNumber?)
  }

  predicate ShaLeq(a: Sha, b: Sha) {
    if a.ShaText? && b.ShaText? then StringLeq(a.text, b.text)
    else if a.ShaNumber? && b.ShaNumber? then a.value <= b.value
    else a == b
  }

  datatype OutputKey = OutputKey(source: string, sha: Sha, key: string)

  function OutputKeyOf(keyed: Keyed, key: string): OutputKey
    requires key in keyed
  {
    OutputKey(keyed[key].source, keyed[key].sha, key)
  }

  /** Comparing two keys raises unless the corpora differ or the hashes are comparable. */
  predicate KeysComparable(a: OutputKey, b: OutputKey) {
    a.source != b.source || ShaComparable(a.sha, b.sha)
  }

  predicate KeyLeq(a: OutputKey, b: OutputKey) {
    if a.source != b.source then StringLeq(a.source, b.source)
    else if a.sha != b.sha then ShaLeq(a.sha, b.sha)
    else StringLeq(a.key, b.key)
  }

  lemma ShaLeqIsTotal(a: Sha, b: Sha)
    ensures ShaComparable(a, b) ==> ShaLeq(a, b) || ShaLeq(b, a)
    ensures ShaLeq(a, b) && ShaLeq(b, a) ==> a == b
  {
    if a.ShaText? && b.ShaText? {
      StringLeqIsTotal(a.text, b.text);
      if ShaLeq(a, b) && ShaLeq(b, a) {
        StringLeqIsAntisymmetric(a.text, b.text);
      }
    }
  }

  lemma ShaLeqIsTransitive(a: Sha, b: Sha, c: Sha)
    requires ShaLeq(a, b) && ShaLeq(b, c)
    ensures ShaLeq(a, c)
  {
    if a.ShaText? && b.ShaText? && c.ShaText? {
      StringLeqIsTransitive(a.text, b.text, c.text);
    }
  }

  lemma KeyLeqIsTotal(a: OutputKey, b: OutputKey)
    ensures KeysComparable(a, b) ==> KeyLeq(a, b) || KeyLeq(b, a)
    ensures KeyLeq(a, b) && KeyLeq(b, a) ==> a == b
  {
    StringLeqIsTotal(a.source, b.source);
    ShaLeqIsTotal(a.sha, b.sha);
    StringLeqIsTotal(a.key, b.key);
    if KeyLeq(a, b) && KeyLeq(b, a) {
      if a.source != b.source {
        StringLeqIsAntisymmetric(a.source, b.source);
      } else if a.sha == b.sha {
        StringLeqIsAntisymmetric(a.key, b.key);
      }
    }
  }

  lemma KeyLeqIsTransitive(a: OutputKey, b: OutputKey, c: OutputKey)
    requires KeyLeq(a, b) && KeyLeq(b, c)
    ensures KeyLeq(a, c)
  {
    if a.source != b.source && b.source != c.source {
      StringLeqIsTransitive(a.source, b.source, c.source);
      if a.source == c.source {
        StringLeqIsAntisymmetric(a.source, b.source);
      }
    } else if a.source == b.source == c.source {
      if a.sha != b.sha && b.sha != c.sha {
        ShaLeqIsTransitive(a.sha, b.sha, c.sha);
        if a.sha == c.sha {
          ShaLeqIsTotal(a.sha, b.sha);
        }
      } else if a.sha == b.sha == c.sha {
        StringLeqIsTransitive(a.key, b.key, c.key);
      }
    }
  }

  // ----- Sorted lists of output keys

  predicate InOrder(keys: seq<OutputKey>) {
    forall i, j :: 0 <= i < j < |keys| ==> KeyLeq(keys[i], keys[j])
  }

  predicate AllComparable(keys: seq<OutputKey>) {
    forall i, j :: 0 <= i < |keys| && 0 <= j < |keys| ==> KeysComparable(keys[i], keys[j])
  }

  /** Insertion before the first key that is not smaller; None when a comparison raises. */
  function InsertKey(key: OutputKey, keys: seq<OutputKey>): Option<seq<OutputKey>> {
    if keys == [] then Some([key])
    else if !KeysComparable(key, keys[0]) then None
    else if KeyLeq(key, keys[0]) then Some([key] + keys)
    else
      var rest := InsertKey(key, keys[1..]);
      if rest.None? then None else Some([keys[0]] + rest.value)
  }

  lemma {:induction false} InsertKeepsKeys(key: OutputKey, keys: seq<OutputKey>)
    requires InsertKey(key, keys).Some?
    ensures multiset(InsertKey(key, keys).value) == multiset{key} + multiset(keys)
    ensures |InsertKey(key, keys).value| == |keys| + 1
  {
    if keys != [] && !KeyLeq(key, keys[0]) {
      InsertKeepsKeys(key, keys[1..]);
      assert keys == [keys[0]] + keys[1..];
    }
  }

  lemma {:induction false} InsertKeepsOrder(key: OutputKey, keys: seq<OutputKey>)
    requires InOrder(keys) && InsertKey(key, keys).Some?
    ensures InOrder(InsertKey(key, keys).value)
  {
    if keys != [] {
      KeyLeqIsTotal(key, keys[0]);
      if KeyLeq(key, keys[0]) {
        forall j | 0 <= j < |keys| ensures KeyLeq(key, keys[j]) {
          if j > 0 {
            KeyLeqIsTransitive(key, keys[0], keys[j]);
          }
        }
      } else {
        InsertKeepsOrder(key, keys[1..]);
        HeadStaysLeast(key, keys);
      }
    }
  }

  lemma HeadStaysLeast(key: OutputKey, keys: seq<OutputKey>)
    requires InOrder(keys) && keys != [] && KeyLeq(keys[0], key) && InsertKey(key, keys[1..]).Some?
    ensures forall k :: k in InsertKey(key, keys[1..]).value ==> KeyLeq(keys[0], k)
  {
    InsertKeepsKeys(key, keys[1..]);
    forall k | k in InsertKey(key, keys[1..]).value ensures KeyLeq(keys[0], k) {
      assert k in multiset(InsertKey(key, keys[1..]).value);
    }
  }

  /** Comparability within a corpus is an equivalence, so the comparison with the right neighbour decides. */
  lemma RightNeighbourDecides(key: OutputKey, keys: seq<OutputKey>)
    requires InOrder(keys) && AllComparable(keys) && keys != []
    requires KeysComparable(key, keys[0]) && KeyLeq(key, keys[0])
    ensures forall k :: k in keys ==> KeysComparable(key, k)
  {
    forall j | 0 <= j < |keys| ensures KeysComparable(key, keys[j]) {
      if j > 0 {
        KeyLeqIsTransitive(key, keys[0], keys[j]);
        assert KeysComparable(keys[0], keys[j]) && KeyLeq(keys[0], keys[j]);
        if key.source == keys[j].source && key.source != keys[0].source {
          StringLeqIsAntisymmetric(key.source, keys[0].source);
        }
      }
    }
  }

  /** Inserting raises exactly when some key already there cannot be compared. */
  lemma {:induction false} InsertRaisesExactlyWhen(key: OutputKey, keys: seq<OutputKey>)
    requires InOrder(keys) && AllComparable(keys)
    ensures InsertKey(key, keys).Some? <==> forall k :: k in keys ==> KeysComparable(key, k)
  {
    if keys != [] && KeysComparable(key, keys[0]) {
      if KeyLeq(key, keys[0]) {
        RightNeighbourDecides(key, keys);
      } else {
        InsertRaisesExactlyWhen(key, keys[1..]);
        assert keys == [keys[0]] + keys[1..];
      }
    }
  }

  /** Every comparison of a key with the next one succeeds and finds it not larger. */
  predicate NeighboursOrdered(keys: seq<OutputKey>) {
    |keys| <= 1 || (KeysComparable(keys[0], keys[1]) && KeyLeq(keys[0], keys[1]) && NeighboursOrdered(keys[1..]))
  }

  /** Then any two keys are comparable and in order, whatever sort arranged them. */
  lemma {:induction false} NeighboursDecide(keys: seq<OutputKey>)
    requires NeighboursOrdered(keys)
    ensures InOrder(keys) && AllComparable(keys)
  {
    if |keys| > 1 {
      NeighboursDecide(keys[1..]);
      RightNeighbourDecides(keys[0], keys[1..]);
      ConsComparable(keys);
      ConsInOrder(keys);
    }
  }

  lemma ConsInOrder(keys: seq<OutputKey>)
    requires |keys| > 1 && KeyLeq(keys[0], keys[1]) && InOrder(keys[1..])
    ensures InOrder(keys)
  {
    forall i, j | 0 <= i < j < |keys| ensures KeyLeq(keys[i], keys[j]) {
      if i > 0 {
        assert keys[i] == keys[1..][i - 1] && keys[j] == keys[1..][j - 1];
      } else if j > 1 {
        assert keys[1] == keys[1..][0] && keys[j] == keys[1..][j - 1];
        KeyLeqIsTransitive(keys[0], keys[1], keys[j]);
      }
    }
  }

  lemma ConsComparable(keys: seq<OutputKey>)
    requires keys != [] && AllComparable(keys[1..]) && forall k :: k in keys[1..] ==> KeysComparable(keys[0], k)
    ensures AllComparable(keys)
  {
    forall i, j | 0 <= i < |keys| && 0 <= j < |keys| ensures KeysComparable(keys[i], keys[j]) {
      assert i > 0 ==> keys[i] == keys[1..][i - 1] && keys[i] in keys[1..];
      assert j > 0 ==> keys[j] == keys[1..][j - 1] && keys[j] in keys[1..];
    }
  }

  lemma LeastHead(keys: seq<OutputKey>, k: OutputKey)
    requires InOrder(keys) && k in keys
    ensures KeyLeq(keys[0], k)
  {
    KeyLeqIsTotal(k, k);
  }

  lemma SameHead(a: seq<OutputKey>, b: seq<OutputKey>)
    requires InOrder(a) && InOrder(b) && multiset(a) == multiset(b) && a != []
    ensures b != [] && a[0] == b[0]
  {
    assert a[0] in multiset(a);
    assert a[0] in multiset(b);
    assert b[0] in multiset(b);
    LeastHead(a, b[0]);
    LeastHead(b, a[0]);
    KeyLeqIsTotal(a[0], b[0]);
  }

  lemma SameTails(a: seq<OutputKey>, b: seq<OutputKey>)
    requires a != [] && b != [] && a[0] == b[0] && multiset(a) == multiset(b)
    ensures multiset(a[1..]) == multiset(b[1..])
  {
    assert a == [a[0]] + a[1..] && b == [b[0]] + b[1..];
    assert multiset(a[1..]) == multiset(a) - multiset{a[0]} && multiset(b[1..]) == multiset(b) - multiset{b[0]};
  }

  /** There is only one ordered list of the same keys, so the written file is determined by what was kept. */
  lemma {:induction false} OrderIsUnique(a: seq<OutputKey>, b: seq<OutputKey>)
    requires InOrder(a) && InOrder(b) && multiset(a) == multiset(b)
    ensures a == b
  {
    assert |multiset(a)| == |multiset(b)|;
    if a != [] {
      SameHead(a, b);
      SameTails(a, b);
      OrderIsUnique(a[1..], b[1..]);
      assert a == [a[0]] + a[1..] && b == [b[0]] + b[1..];
    }
  }

  /** What the order is: by corpus, then by hash, then by key. */
  lemma OrderMeans(order: seq<OutputKey>, i: nat, j: nat)
    requires InOrder(order) && i < j < |order|
    ensures StringLeq(order[i].source, order[j].source)
    ensures order[i].source == order[j].source && order[i].sha.ShaText? && order[j].sha.ShaText? ==>
              StringLeq(order[i].sha.text, order[j].sha.text)
    ensures order[i].source == order[j].source && order[i].sha.ShaNumber? && order[j].sha.ShaNumber? ==>
              order[i].sha.value <= order[j].sha.value
    ensures order[i].source == order[j].source && order[i].sha == order[j].sha ==>
              StringLeq(order[i].key, order[j].key)
  {
    StringLeqIsTotal(order[i].source, order[i].source);
    if order[i].sha.ShaText? {
      StringLeqIsTotal(order[i].sha.text, order[i].sha.text);
    }
  }

  // ----- Sorting what was kept

  function OutputKeys(keyed: Keyed, keys: set<string>): set<OutputKey>
    requires keys <= keyed.Keys
  {
    set key | key in keys :: OutputKeyOf(keyed, key)
  }

  /** Every kept key once, in order. */
  ghost predicate IsSortedKeys(order: seq<OutputKey>, keyed: Keyed) {
    InOrder(order) && |order| == |keyed| && multiset(order) == multiset(OutputKeys(keyed, keyed.Keys))
  }

  /** No two kept rows of one corpus have hashes whose order is undefined. */
  ghost predicate Sortable(keyed: Keyed) {
    forall k, k' :: k in keyed && k' in keyed ==> KeysComparable(OutputKeyOf(keyed, k), OutputKeyOf(keyed, k'))
  }

  /** So no sort can arrange the kept keys unless all of one corpus can be compared. */
  lemma ArrangedIsSortable(keyed: Keyed, order: seq<OutputKey>)
    requires multiset(order) == multiset(OutputKeys(keyed, keyed.Keys)) && NeighboursOrdered(order)
    ensures Sortable(keyed)
  {
    NeighboursDecide(order);
    forall k | k in keyed ensures OutputKeyOf(keyed, k) in order {
      assert OutputKeyOf(keyed, k) in OutputKeys(keyed, keyed.Keys);
      assert OutputKeyOf(keyed, k) in multiset(order);
    }
  }

  lemma OneMoreKey(keyed: Keyed, keys: set<string>, key: string)
    requires key in keys && keys <= keyed.Keys
    ensures multiset(OutputKeys(keyed, keyed.Keys - (keys - {key})))
         == multiset{OutputKeyOf(keyed, key)} + multiset(OutputKeys(keyed, keyed.Keys - keys))
  {
    var seen, next := OutputKeys(keyed, keyed.Keys - keys), OutputKeyOf(keyed, key);
    assert next !in seen;
    assert OutputKeys(keyed, keyed.Keys - (keys - {key})) == seen + {next};
  }

  /** What has been inserted so far. */
  ghost predicate Sorting(order: seq<OutputKey>, keyed: Keyed, keys: set<string>)
    requires keys <= keyed.Keys
  {
    && InOrder(order) && AllComparable(order)
    && (forall k :: k in order <==> k in OutputKeys(keyed, keyed.Keys - keys))
    && multiset(order) == multiset(OutputKeys(keyed, keyed.Keys - keys))
    && |order| + |keys| == |keyed.Keys|
  }

  lemma NextKey(keyed: Keyed, keys: set<string>, key: string, order: seq<OutputKey>)
    requires key in keys && keys <= keyed.Keys && Sorting(order, keyed, keys)
    ensures InsertKey(OutputKeyOf(keyed, key), order).None? ==> !Sortable(keyed)
    ensures InsertKey(OutputKeyOf(keyed, key), order).Some? ==>
              Sorting(InsertKey(OutputKeyOf(keyed, key), order).value, keyed, keys - {key})
  {
    var k := OutputKeyOf(keyed, key);
    InsertRaisesExactlyWhen(k, order);
    if InsertKey(k, order).Some? {
      var longer := InsertKey(k, order).value;
      InsertKeepsOrder(k, order);
      InsertKeepsKeys(k, order);
      OneMoreKey(keyed, keys, key);
      InsertKeepsComparable(k, order, longer);
      OrderMembers(longer, OutputKeys(keyed, keyed.Keys - (keys - {key})));
    }
  }

  lemma OrderMembers(order: seq<OutputKey>, keys: set<OutputKey>)
    requires multiset(order) == multiset(keys)
    ensures forall k :: k in order <==> k in keys
  {
    forall k ensures k in order <==> k in keys {
      assert k in order <==> k in multiset(order);
      assert k in multiset(keys) <==> k in keys;
    }
  }

  lemma InsertKeepsComparable(key: OutputKey, order: seq<OutputKey>, longer: seq<OutputKey>)
    requires AllComparable(order) && (forall k :: k in order ==> KeysComparable(key, k))
    requires multiset(longer) == multiset{key} + multiset(order)
    ensures AllComparable(longer)
  {
    forall i, j | 0 <= i < |longer| && 0 <= j < |longer| ensures KeysComparable(longer[i], longer[j]) {
      assert longer[i] in multiset(longer) && longer[j] in multiset(longer);
      assert longer[i] == key || longer[i] in order;
      assert longer[j] == key || longer[j] in order;
    }
  }

  /** Raises exactly when two kept rows of one corpus have hashes whose order is undefined. */
  method SortedKeys(keyed: Keyed) returns (sorted: Result<seq<OutputKey>>)
    ensures sorted.Ok? <==> Sortable(keyed)
    ensures sorted.Ok? ==> IsSortedKeys(sorted.result, keyed)
  {
    var order: seq<OutputKey> := [];
    var keys := keyed.Keys;
    assert OutputKeys(keyed, keyed.Keys - keys) == {};
    while keys != {}
      invariant keys <= keyed.Keys && Sorting(order, keyed, keys)
    {
      var key :| key in keys;
      NextKey(keyed, keys, key, order);
      var longer := InsertKey(OutputKeyOf(keyed, key), order);
      if longer.None? {
        return Raise("'<' not supported between these hashes");
      }
      order := longer.value;
      keys := keys - {key};
    }
    assert keyed.Keys - {} == keyed.Keys;
    SortingDone(order, keyed);
    return Ok(order);
  }

  lemma SortingDone(order: seq<OutputKey>, keyed: Keyed)
    requires Sorting(order, keyed, {})
    ensures IsSortedKeys(order, keyed) && Sortable(keyed)
  {
    assert keyed.Keys - {} == keyed.Keys;
    forall k, k' | k in keyed && k' in keyed
      ensures KeysComparable(OutputKeyOf(keyed, k), OutputKeyOf(keyed, k'))
    {
      assert OutputKeyOf(keyed, k) in order && OutputKeyOf(keyed, k') in order;
    }
  }

  lemma SortedKeysAreKept(order: seq<OutputKey>, keyed: Keyed)
    requires IsSortedKeys(order, keyed)
    ensures forall k :: k in order <==> k.key in keyed && k == OutputKeyOf(keyed, k.key)
  {
    forall k ensures k in order <==> k.key in keyed && k == OutputKeyOf(keyed, k.key) {
      assert k in order <==> k in multiset(order);
      assert k in multiset(OutputKeys(keyed, keyed.Keys)) <==> k in OutputKeys(keyed, keyed.Keys);
    }
  }

  function RowsOf(keyed: Keyed, order: seq<OutputKey>): seq<Row>
    requires forall k :: k in order ==> k.key in keyed
  {
    seq(|order|, i requires 0 <= i < |order| => keyed[order[i].key])
  }

  /** The written rows are the kept ones, and no other list can be written for them. */
  lemma OutputIsDetermined(keyed: Keyed, order: seq<OutputKey>, order': seq<OutputKey>)
    requires IsSortedKeys(order, keyed) && IsSortedKeys(order', keyed)
    ensures order == order'
    ensures (forall k :: k in order ==> k.key in keyed) && |RowsOf(keyed, order)| == |keyed|
    ensures forall row :: row in RowsOf(keyed, order) <==> row in keyed.Values
  {
    OrderIsUnique(order, order');
    SortedKeysAreKept(order, keyed);
    var rows := RowsOf(keyed, order);
    forall row | row in keyed.Values ensures row in rows {
      var key :| key in keyed && keyed[key] == row;
      var i :| 0 <= i < |order| && order[i] == OutputKeyOf(keyed, key);
      assert rows[i] == row;
    }
  }
}

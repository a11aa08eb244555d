/** Helpers on sequences and finite sets shared by the models. */
module Collections {
  function Front<T>(s: seq<T>): seq<T>
    requires s != []
  {
    s[..|s| - 1]
  }

  function Last<T>(s: seq<T>): T
    requires s != []
  {
    s[|s| - 1]
  }

  function SetOf<T>(s: seq<T>): set<T> {
    set x | x in s
  }

  predicate Distinct<T(==)>(s: seq<T>) {
    forall i, j :: 0 <= i < j < |s| ==> s[i] != s[j]
  }

  /** These elements occur among all in this order. */
  predicate Among<T(==)>(s: seq<T>, all: seq<T>) {
    s == [] ||
    (all != [] && ((s[0] == all[0] && Among(s[1..], all[1..])) || Among(s, all[1..])))
  }

  lemma {:induction false} AmongSkip<T>(s: seq<T>, all: seq<T>, x: T)
    requires Among(s, all)
    ensures Among(s, all + [x])
  {
    if s != [] {
      assert (all + [x])[1..] == all[1..] + [x];
      if s[0] == all[0] && Among(s[1..], all[1..]) {
        AmongSkip(s[1..], all[1..], x);
      } else {
        AmongSkip(s, all[1..], x);
      }
    }
  }

  lemma {:induction false} AmongSnoc<T>(s: seq<T>, all: seq<T>, x: T)
    requires Among(s, all)
    ensures Among(s + [x], all + [x])
  {
    if all == [] {
      assert s == [] && ([x])[1..] == [];
    } else {
      assert (all + [x])[1..] == all[1..] + [x];
      if s != [] && s[0] == all[0] && Among(s[1..], all[1..]) {
        assert (s + [x])[1..] == s[1..] + [x];
        AmongSnoc(s[1..], all[1..], x);
      } else {
        AmongSnoc(s, all[1..], x);
      }
    }
  }

  lemma SubsetSize<T>(small: set<T>, big: set<T>)
    requires small <= big
    ensures |small| <= |big|
  {
    assert big == small + (big - small);
  }
}

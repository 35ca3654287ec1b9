// Orders in which Go may range over a map: every key, once.

module Enumerations {

  ghost predicate Enumerates(order: seq<string>, keys: set<string>) {
    && (forall i, j :: 0 <= i < j < |order| ==> order[i] != order[j])
    && (forall k :: k in order <==> k in keys)
  }

  lemma NoKeys()
    ensures Enumerates([], {})
  {
  }

  lemma OneKeyMore(order: seq<string>, keys: set<string>, k: string)
    requires Enumerates(order, keys) && k !in keys
    ensures Enumerates(order + [k], keys + {k})
  {
    var more := order + [k];
    forall i, j | 0 <= i < j < |more| ensures more[i] != more[j] {
      assert order[i] in order;
    }
    assert forall x :: x in more <==> x in order || x == k;
  }

  lemma {:induction false} OrderOf(keys: set<string>) returns (order: seq<string>)
    ensures Enumerates(order, keys)
  {
    if keys == {} {
      order := [];
    } else {
      var k :| k in keys;
      var rest := OrderOf(keys - {k});
      OneKeyMore(rest, keys - {k}, k);
      assert keys - {k} + {k} == keys;
      order := rest + [k];
    }
  }

  /** Any key may come last. */
  lemma OrderEndingIn(keys: set<string>, k: string) returns (rest: seq<string>)
    requires k in keys
    ensures Enumerates(rest, keys - {k}) && Enumerates(rest + [k], keys)
  {
    rest := OrderOf(keys - {k});
    OneKeyMore(rest, keys - {k}, k);
    assert keys - {k} + {k} == keys;
  }
}

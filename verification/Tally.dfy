/**
 Running totals by key, the shape `map.set(k, (map.get(k) || 0) + x)`: an association list
 in insertion order. Whatever the order of the items, the totals add up.
 */
module Tally {

  datatype Item = Item(key: string, amount: real)

  type Totals = seq<Item>

  function AmountOf(t: Totals, key: string): real {
    if t == [] then 0.0 else if t[0].key == key then t[0].amount else AmountOf(t[1..], key)
  }

  function AddTo(t: Totals, key: string, x: real): Totals {
    if t == [] then [Item(key, x)]
    else if t[0].key == key then [Item(key, t[0].amount + x)] + t[1..]
    else [t[0]] + AddTo(t[1..], key, x)
  }

  function Sum(items: seq<Item>): real {
    if items == [] then 0.0 else items[0].amount + Sum(items[1..])
  }

  /** What the items of one key amount to. */
  function SumFor(items: seq<Item>, key: string): real {
    if items == [] then 0.0
    else
      var last := items[|items| - 1];
      SumFor(items[..|items| - 1], key) + (if last.key == key then last.amount else 0.0)
  }

  function SumAll(items: seq<Item>): real {
    if items == [] then 0.0 else SumAll(items[..|items| - 1]) + items[|items| - 1].amount
  }

  function TotalsOf(items: seq<Item>): Totals {
    if items == [] then []
    else AddTo(TotalsOf(items[..|items| - 1]), items[|items| - 1].key, items[|items| - 1].amount)
  }

  lemma OneMore(items: seq<Item>, it: Item)
    ensures TotalsOf(items + [it]) == AddTo(TotalsOf(items), it.key, it.amount)
    ensures SumAll(items + [it]) == SumAll(items) + it.amount
  {
    assert (items + [it])[..|items|] == items;
  }

  lemma {:induction false} AddToSum(t: Totals, key: string, x: real)
    ensures Sum(AddTo(t, key, x)) == Sum(t) + x
  {
    if t == [] {
      assert AddTo(t, key, x)[1..] == [];
    } else if t[0].key == key {
      assert AddTo(t, key, x)[1..] == t[1..];
    } else {
      AddToSum(t[1..], key, x);
      assert AddTo(t, key, x)[1..] == AddTo(t[1..], key, x);
    }
  }

  lemma {:induction false} AddToAmount(t: Totals, key: string, x: real, k: string)
    ensures AmountOf(AddTo(t, key, x), k) == AmountOf(t, k) + if k == key then x else 0.0
  {
    if t == [] {
      assert AddTo(t, key, x)[1..] == [];
    } else if t[0].key == key {
      assert AddTo(t, key, x)[1..] == t[1..];
    } else {
      AddToAmount(t[1..], key, x, k);
      assert AddTo(t, key, x)[1..] == AddTo(t[1..], key, x);
    }
  }

  /** Each total is what its key's items amount to, and the totals together what all items do. */
  lemma {:induction false} TotalsConserve(items: seq<Item>, key: string)
    ensures AmountOf(TotalsOf(items), key) == SumFor(items, key)
    ensures Sum(TotalsOf(items)) == SumAll(items)
  {
    if items != [] {
      var init, last := items[..|items| - 1], items[|items| - 1];
      TotalsConserve(init, key);
      AddToSum(TotalsOf(init), last.key, last.amount);
      AddToAmount(TotalsOf(init), last.key, last.amount, key);
    }
  }
}

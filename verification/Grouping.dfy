/** Grouping rows by an id in one pass, as the batch builders do before deriving anything per agent. */
module Grouping {

  /** The rows of one id, in order. */
  function Select<T(!new)>(items: seq<T>, key: T -> string, id: string): (r: seq<T>)
    ensures forall x :: x in r <==> x in items && key(x) == id
  {
    if items == [] then []
    else if key(items[|items| - 1]) == id then Select(items[..|items| - 1], key, id) + [items[|items| - 1]]
    else Select(items[..|items| - 1], key, id)
  }

  method GroupBy<T(!new)>(items: seq<T>, key: T -> string) returns (groups: map<string, seq<T>>)
    ensures forall id :: id in groups <==> Select(items, key, id) != []
    ensures forall id :: id in groups ==> groups[id] == Select(items, key, id)
  {
    groups := map[];
    for i := 0 to |items|
      invariant forall id :: id in groups <==> Select(items[..i], key, id) != []
      invariant forall id :: id in groups ==> groups[id] == Select(items[..i], key, id)
    {
      assert items[..i + 1][..i] == items[..i];
      var k := key(items[i]);
      if k in groups {
        groups := groups[k := groups[k] + [items[i]]];
      } else {
        groups := groups[k := [items[i]]];
      }
    }
    assert items[..|items|] == items;
  }
}

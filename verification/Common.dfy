/** Small datatypes and helpers shared by the other modules. */
module Common {

  datatype Option<+T> = None | Some(value: T)

  function Min(x: int, y: int): int {
    if x < y then x else y
  }

  function Max(x: int, y: int): int {
    if x > y then x else y
  }

  /** `parts.join(sep)`. */
  function Join(parts: seq<string>, sep: string): string {
    if parts == [] then ""
    else if |parts| == 1 then parts[0]
    else parts[0] + sep + Join(parts[1..], sep)
  }

  /** One more character in front of the first part. */
  lemma JoinLonger(c: char, parts: seq<string>, sep: string)
    requires parts != []
    ensures Join([[c] + parts[0]] + parts[1..], sep) == [c] + Join(parts, sep)
  {
    var longer := [[c] + parts[0]] + parts[1..];
    assert longer[1..] == parts[1..];
    if |parts| > 1 {
      assert [c] + parts[0] + sep + Join(parts[1..], sep) == [c] + (parts[0] + sep + Join(parts[1..], sep));
    }
  }

  /** A union is at most as large as its parts together, and as large when they share nothing. */
  lemma UnionSize<T>(a: set<T>, b: set<T>)
    ensures |a + b| <= |a| + |b|
    ensures a !! b ==> |a + b| == |a| + |b|
  {
    assert |a + b| + |a * b| == |a| + |b|;
    assert a !! b ==> a * b == {};
  }

  /** Lists by key, with the keys in the order in which they came. */
  datatype Grouped<V> = Grouped(keys: seq<string>, lists: map<string, seq<V>>)

  /** One more value under a key. */
  function Pushed<V>(g: Grouped<V>, key: string, value: V): Grouped<V> {
    if key in g.lists then Grouped(g.keys, g.lists[key := g.lists[key] + [value]])
    else Grouped(g.keys + [key], g.lists[key := [value]])
  }
}

/** The order in which the walker visits the keys of a dict: ascending by code point, the order
    `sorted(..., key=str)` gives for string keys. */
module KeyOrder {

  /** Lexicographic order on strings by code point (a proper prefix comes first). */
  predicate StrLe(a: string, b: string) {
    if a == [] then true
    else if b == [] then false
    else if a[0] != b[0] then a[0] < b[0]
    else StrLe(a[1..], b[1..])
  }

  lemma {:induction false} StrLeAntisymmetric(a: string, b: string)
    requires StrLe(a, b) && StrLe(b, a)
    ensures a == b
  {
    if a != [] && b != [] {
      StrLeAntisymmetric(a[1..], b[1..]);
    }
  }

  lemma {:induction false} StrLeTotal(a: string, b: string)
    ensures StrLe(a, b) || StrLe(b, a)
  {
    if a != [] && b != [] {
      StrLeTotal(a[1..], b[1..]);
    }
  }

  lemma {:induction false} StrLeTransitive(a: string, b: string, c: string)
    requires StrLe(a, b) && StrLe(b, c)
    ensures StrLe(a, c)
  {
    if a != [] && b != [] && c != [] && a[0] == b[0] == c[0] {
      StrLeTransitive(a[1..], b[1..], c[1..]);
    }
  }

  predicate IsLeast(m: string, keys: set<string>) {
    m in keys && forall k :: k in keys ==> StrLe(m, k)
  }

  lemma {:induction false} LeastWitness(keys: set<string>) returns (m: string)
    requires keys != {}
    ensures IsLeast(m, keys)
    decreases |keys|
  {
    var x :| x in keys;
    StrLeTotal(x, x);
    if keys == {x} {
      m := x;
    } else {
      var m' := LeastWitness(keys - {x});
      StrLeTotal(m', x);
      if StrLe(m', x) {
        m := m';
      } else {
        forall k | k in keys
          ensures StrLe(x, k)
        {
          if k != x {
            StrLeTransitive(x, m', k);
          }
        }
        m := x;
      }
    }
  }

  lemma LeastExistsAndIsUnique(keys: set<string>)
    requires keys != {}
    ensures exists m :: IsLeast(m, keys)
    ensures forall m, m' :: IsLeast(m, keys) && IsLeast(m', keys) ==> m == m'
  {
    var _ := LeastWitness(keys);
    forall m, m' | IsLeast(m, keys) && IsLeast(m', keys)
      ensures m == m'
    {
      StrLeAntisymmetric(m, m');
    }
  }

  function Least(keys: set<string>): (m: string)
    requires keys != {}
    ensures IsLeast(m, keys)
  {
    LeastExistsAndIsUnique(keys);
    var m :| IsLeast(m, keys); m
  }

  /** The keys in ascending order, each once. */
  function SortedKeys(keys: set<string>): (r: seq<string>)
    ensures |r| == |keys|
    ensures forall k :: k in r <==> k in keys
    ensures forall i :: 0 < i < |r| ==> StrLe(r[i - 1], r[i])
    decreases |keys|
  {
    if keys == {} then []
    else
      var m := Least(keys);
      var rest := SortedKeys(keys - {m});
      assert rest != [] ==> rest[0] in keys - {m};
      [m] + rest
  }
}

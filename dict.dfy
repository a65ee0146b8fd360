/** The records built by the extractor: Python dictionaries with string keys whose
    values are strings, booleans or nested dictionaries. A dictionary is kept as the
    sequence of its entries in insertion order, as Python 3.7+ keeps it. */
module OrderedDict {
  import opened Text

  datatype Scalar = Str(text: string) | Bool(flag: bool)

  datatype Field = Leaf(scalar: Scalar) | Group(members: seq<(string, Field)>)

  type Dict = seq<(string, Field)>

  /** The keys in insertion order. */
  function Keys(d: Dict): seq<string> {
    if d == [] then [] else [d[0].0] + Keys(d[1..])
  }

  /** `d[k]`, or None when `k` is not a key. */
  function Get(d: Dict, k: string): Option<Field> {
    if d == [] then None else if d[0].0 == k then Some(d[0].1) else Get(d[1..], k)
  }

  /** `d[k] = v`: an existing key keeps its place, a new key goes last. */
  function Put(d: Dict, k: string, v: Field): (r: Dict)
    ensures Get(r, k) == Some(v)
    ensures forall k' :: k' != k ==> Get(r, k') == Get(d, k')
    ensures Keys(r) == if k in Keys(d) then Keys(d) else Keys(d) + [k]
    ensures forall e :: e in r ==> e in d || e == (k, v)
  {
    if d == [] then [(k, v)]
    else if d[0].0 == k then [(k, v)] + d[1..]
    else [d[0]] + Put(d[1..], k, v)
  }

  /** A key is present exactly when looking it up succeeds. */
  lemma {:induction false} KeysGet(d: Dict, k: string)
    ensures k in Keys(d) <==> Get(d, k).Some?
  {
    if d != [] {
      KeysGet(d[1..], k);
    }
  }

  /** Writing the value a key already has changes nothing. */
  lemma {:induction false} PutSame(d: Dict, k: string, v: Field)
    requires Get(d, k) == Some(v)
    ensures Put(d, k, v) == d
  {
    if d[0].0 != k {
      PutSame(d[1..], k, v);
    }
  }

  /** Of two writes to the same key only the second is visible. */
  lemma {:induction false} PutPut(d: Dict, k: string, v: Field, w: Field)
    ensures Put(Put(d, k, v), k, w) == Put(d, k, w)
  {
    if d != [] && d[0].0 != k {
      PutPut(d[1..], k, v, w);
    }
  }
}

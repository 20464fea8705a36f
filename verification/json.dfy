/** The plain Python data the gateway passes around: JSON-like values built
    from dicts and lists, plus `bytes`, which the SDK hands back for binary
    fields and which must be turned into text before `json.dumps`. */
module Json {
  import opened Wrappers
  import Base64

  type byte = Base64.byte

  datatype Json =
    | JNull
    | JBool(b: bool)
    | JInt(i: int)
    | JFloat(f: real)
    | JStr(s: string)
    | JBytes(bytes: seq<byte>)
    | JList(items: seq<Json>)
    | JObj(fields: Dict)

  /** A Python dict, keys in insertion order. The type admits a key twice,
      which a Python dict cannot hold; lookups below take the first entry
      for a key, which for a dict with `UniqueKeys` is its only one
      (`GetUnique`). */
  type Dict = seq<(string, Json)>

  /** No key occurs twice, as in a Python dict. */
  predicate UniqueKeys(d: Dict) {
    forall i, j :: 0 <= i < j < |d| ==> d[i].0 != d[j].0
  }

  /** Python truthiness: `None`, `False`, zero and empty containers are false. */
  predicate Truthy(j: Json) {
    match j
    case JNull => false
    case JBool(b) => b
    case JInt(i) => i != 0
    case JFloat(f) => f != 0.0
    case JStr(s) => |s| > 0
    case JBytes(b) => |b| > 0
    case JList(items) => |items| > 0
    case JObj(fields) => |fields| > 0
  }

  /** The keys of a dict, in order. */
  function Keys(d: Dict): (r: seq<string>)
    ensures |r| == |d|
    ensures forall i :: 0 <= i < |d| ==> r[i] == d[i].0
  {
    seq(|d|, i requires 0 <= i < |d| => d[i].0)
  }

  /** `k in d` */
  predicate HasKey(d: Dict, k: string) {
    k in Keys(d)
  }

  /** The keys of a concatenation are the keys of one part, then the other. */
  lemma KeysAppend(x: Dict, y: Dict)
    ensures Keys(x + y) == Keys(x) + Keys(y)
  {
  }

  /** `d.get(k)`, as an Option. */
  function Get(d: Dict, k: string): (r: Option<Json>)
    ensures r.Some? <==> HasKey(d, k)
    ensures r.Some? ==> exists i :: 0 <= i < |d| && d[i] == (k, r.value)
  {
    if |d| == 0 then None
    else if d[0].0 == k then Some(d[0].1)
    else
      var r := Get(d[1..], k);
      assert forall i :: 0 < i < |d| ==> d[i] == d[1..][i - 1];
      r
  }

  /** With unique keys, first-match lookup is no choice: `d.get(k)` is `v`
      exactly when `(k, v)` is an entry of `d`. */
  lemma GetUnique(d: Dict, k: string, v: Json)
    requires UniqueKeys(d)
    ensures Get(d, k) == Some(v) <==> exists i :: 0 <= i < |d| && d[i] == (k, v)
  {
    if exists i :: 0 <= i < |d| && d[i] == (k, v) {
      var i :| 0 <= i < |d| && d[i] == (k, v);
      assert Keys(d)[i] == k;
      var j :| 0 <= j < |d| && d[j] == (k, Get(d, k).value);
      assert i == j;
    }
  }

  /** `d.get(k)` finds the entry at `i` when no earlier entry has key `k`. */
  lemma {:induction false} GetFirst(d: Dict, i: nat, k: string)
    requires i < |d| && d[i].0 == k
    requires forall j :: 0 <= j < i ==> d[j].0 != k
    ensures Get(d, k) == Some(d[i].1)
    decreases i
  {
    if i > 0 {
      assert d[1..][i - 1] == d[i];
      GetFirst(d[1..], i - 1, k);
    }
  }

  /** A lookup in a concatenation finds the key in the first part when it
      is there, and looks in the second part otherwise. */
  lemma {:induction false} GetAppend(x: Dict, y: Dict, k: string)
    ensures HasKey(x, k) ==> Get(x + y, k) == Get(x, k)
    ensures !HasKey(x, k) ==> Get(x + y, k) == Get(y, k)
    decreases |x|
  {
    if |x| > 0 {
      assert (x + y)[0] == x[0];
      assert (x + y)[1..] == x[1..] + y;
      if x[0].0 != k {
        GetAppend(x[1..], y, k);
        assert x == [x[0]] + x[1..];
        KeysAppend([x[0]], x[1..]);
      }
    } else {
      assert x + y == y;
    }
  }

  /** A key the first part lacks is looked up in the second. */
  lemma GetSkips(x: Dict, y: Dict, k: string, v: Json)
    requires !HasKey(x, k) && Get(y, k) == Some(v)
    ensures Get(x + y, k) == Some(v)
  {
    GetAppend(x, y, k);
  }

  /** A key the first part has is found there. */
  lemma GetKeeps(x: Dict, y: Dict, k: string, v: Json)
    requires Get(x, k) == Some(v)
    ensures Get(x + y, k) == Some(v)
  {
    GetAppend(x, y, k);
  }

  /** `d.get(k, default)` */
  function GetOr(d: Dict, k: string, default: Json): Json {
    Get(d, k).GetOr(default)
  }

  /** `d.get(k)`, with a missing key read as `None`. */
  function GetOrNull(d: Dict, k: string): Json {
    GetOr(d, k, JNull)
  }

  /** Python's `a or b`. */
  function Or(a: Json, b: Json): Json {
    if Truthy(a) then a else b
  }

  /** `json.dumps` accepts the value: no `bytes` anywhere inside it. */
  predicate Serializable(j: Json) {
    match j
    case JBytes(_) => false
    case JList(items) => forall i :: 0 <= i < |items| ==> Serializable(items[i])
    case JObj(fields) => forall i :: 0 <= i < |fields| ==> Serializable(fields[i].1)
    case _ => true
  }

  predicate DictSerializable(d: Dict) {
    forall i :: 0 <= i < |d| ==> Serializable(d[i].1)
  }
}

/**
 * JSON-safe values, the shape of what the normalisers hand to the HTTP
 * response renderer: numbers, strings, lists and dictionaries.
 *
 * A Python dict keeps insertion order, so an object is an ordered sequence of
 * (key, value) members rather than a Dafny map; this lets the model state that
 * the keys come out in the order the source's dict literals write them.
 * The list comprehension `[f(x) for x in xs]` that every normaliser uses is
 * modelled once, as ListToJson, together with its partner DecodeList.
 */
module JsonModel {
  import opened Wrappers

  datatype Json =
    | JInt(i: int)
    | JReal(r: real)
    | JString(s: string)
    | JArray(items: seq<Json>)
    | JObject(members: seq<(string, Json)>)

  /** The keys of an object's members, in order. */
  function KeyList(members: seq<(string, Json)>): (keys: seq<string>)
    ensures |keys| == |members|
    ensures forall i :: 0 <= i < |members| ==> keys[i] == members[i].0
  {
    if members == [] then [] else [members[0].0] + KeyList(members[1..])
  }

  /** No key occurs twice, as in every Python dict. */
  predicate DistinctKeys(members: seq<(string, Json)>)
  {
    forall i, j :: 0 <= i < j < |members| ==> members[i].0 != members[j].0
  }

  /** `d.get(key)`: the value of the first member with that key, if any. */
  function Lookup(members: seq<(string, Json)>, key: string): (r: Option<Json>)
    ensures r.None? <==> forall i :: 0 <= i < |members| ==> members[i].0 != key
    ensures r.Some? ==> exists i :: 0 <= i < |members| && members[i] == (key, r.value)
  {
    if members == [] then None
    else if members[0].0 == key then Some(members[0].1)
    else Lookup(members[1..], key)
  }

  /** Looking up a key of an object whose keys are distinct finds that member's value. */
  lemma {:induction false} LookupDistinct(members: seq<(string, Json)>, i: nat)
    requires DistinctKeys(members) && i < |members|
    ensures Lookup(members, members[i].0) == Some(members[i].1)
  {
    if i > 0 {
      assert members[0].0 != members[i].0;
      LookupDistinct(members[1..], i - 1);
    }
  }

  /** The value under `key` when `j` is an object. */
  function Get(j: Json, key: string): (r: Option<Json>)
    ensures r.Some? ==> j.JObject? && (key, r.value) in j.members
  {
    if j.JObject? then Lookup(j.members, key) else None
  }

  /** Every object inside `j`, at any depth, is a genuine dictionary: its keys are distinct. */
  predicate WellFormed(j: Json)
  {
    match j
    case JArray(items) => forall k :: 0 <= k < |items| ==> WellFormed(items[k])
    case JObject(members) =>
      DistinctKeys(members) && forall k :: 0 <= k < |members| ==> WellFormed(members[k].1)
    case _ => true
  }

  /** The list comprehension `[f(x) for x in xs]`: one output per input, in order. */
  function ListToJson<T>(xs: seq<T>, f: T -> Json): (r: seq<Json>)
    ensures |r| == |xs|
    ensures forall k :: 0 <= k < |xs| ==> r[k] == f(xs[k])
  {
    if xs == [] then [] else [f(xs[0])] + ListToJson(xs[1..], f)
  }

  /** The nested comprehension `[[f(x) for x in xs] for xs in xss]`. */
  function NestedToJson<T>(xss: seq<seq<T>>, f: T -> Json): (r: seq<Json>)
    ensures |r| == |xss|
    ensures forall k :: 0 <= k < |xss| ==>
      r[k].JArray? && |r[k].items| == |xss[k]| &&
      forall m :: 0 <= m < |xss[k]| ==> r[k].items[m] == f(xss[k][m])
  {
    if xss == [] then [] else [JArray(ListToJson(xss[0], f))] + NestedToJson(xss[1..], f)
  }

  /**
   * `out` is a list of lists mirroring `input`: same outer length, same inner
   * lengths, and element [i][j] is the conversion of input element [i][j].
   */
  ghost predicate Mirrors<T>(out: Option<Json>, input: seq<seq<T>>, conv: T -> Json)
  {
    out.Some? && out.value.JArray? && |out.value.items| == |input| &&
    forall i :: 0 <= i < |input| ==>
      out.value.items[i].JArray? && |out.value.items[i].items| == |input[i]| &&
      forall j :: 0 <= j < |input[i]| ==> out.value.items[i].items[j] == conv(input[i][j])
  }

  /** The nested comprehension mirrors its input: no element is dropped, added or moved. */
  lemma NestedMirrors<T>(xss: seq<seq<T>>, f: T -> Json)
    ensures Mirrors(Some(JArray(NestedToJson(xss, f))), xss, f)
  {
  }

  /** Reads a list back element by element; fails if any element fails. */
  function DecodeList<T>(items: seq<Json>, dec: Json -> Option<T>): (r: Option<seq<T>>)
    ensures r.Some? ==> |r.value| == |items|
  {
    if items == [] then Some([])
    else match (dec(items[0]), DecodeList(items[1..], dec))
      case (Some(x), Some(xs)) => Some([x] + xs)
      case _ => None
  }

  /** Reads a list of lists back; fails unless every element is a list that decodes. */
  function DecodeNested<T>(items: seq<Json>, dec: Json -> Option<T>): (r: Option<seq<seq<T>>>)
    ensures r.Some? ==> |r.value| == |items|
  {
    if items == [] then Some([])
    else if !items[0].JArray? then None
    else match (DecodeList(items[0].items, dec), DecodeNested(items[1..], dec))
      case (Some(xs), Some(xss)) => Some([xs] + xss)
      case _ => None
  }

  /** A comprehension loses nothing when its element conversion loses nothing. */
  lemma {:induction false} ListRoundTrip<T>(xs: seq<T>, f: T -> Json, dec: Json -> Option<T>)
    requires forall x :: dec(f(x)) == Some(x)
    ensures DecodeList(ListToJson(xs, f), dec) == Some(xs)
  {
    if xs != [] {
      ListRoundTrip(xs[1..], f, dec);
      assert ListToJson(xs, f)[1..] == ListToJson(xs[1..], f);
      assert [xs[0]] + xs[1..] == xs;
    }
  }

  /** The same for the nested comprehension. */
  lemma {:induction false} NestedRoundTrip<T>(xss: seq<seq<T>>, f: T -> Json, dec: Json -> Option<T>)
    requires forall x :: dec(f(x)) == Some(x)
    ensures DecodeNested(NestedToJson(xss, f), dec) == Some(xss)
  {
    if xss != [] {
      ListRoundTrip(xss[0], f, dec);
      NestedRoundTrip(xss[1..], f, dec);
      assert NestedToJson(xss, f)[1..] == NestedToJson(xss[1..], f);
      assert [xss[0]] + xss[1..] == xss;
    }
  }

  /** A comprehension of well-formed values is well-formed. */
  lemma {:induction false} ListWellFormed<T>(xs: seq<T>, f: T -> Json)
    requires forall x :: WellFormed(f(x))
    ensures WellFormed(JArray(ListToJson(xs, f)))
  {
    var r := ListToJson(xs, f);
    forall k | 0 <= k < |r| ensures WellFormed(r[k]) {
      assert r[k] == f(xs[k]);
    }
  }

  /** The same for the nested comprehension. */
  lemma {:induction false} NestedWellFormed<T>(xss: seq<seq<T>>, f: T -> Json)
    requires forall x :: WellFormed(f(x))
    ensures WellFormed(JArray(NestedToJson(xss, f)))
  {
    var r := NestedToJson(xss, f);
    forall k | 0 <= k < |r| ensures WellFormed(r[k]) {
      ListWellFormed(xss[k], f);
      assert r[k] == JArray(ListToJson(xss[k], f));
    }
  }
}

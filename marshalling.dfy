/**
  The conversion `readableMapToJSONObject` of NielsenNzme.java: a React
  Native `ReadableMap` is copied key by key into a `JSONObject`, each value
  read as a string.

  A `ReadableMap` is modelled as the sequence of its entries in the order
  its key-set iterator yields them; a `JSONObject` of string values as a
  map from key to text. What reading one value does is decided by React
  Native and org.json, neither of which is part of this model, so each
  entry carries the outcome of that step (see `Dynamic`).
 */
module Marshalling {

  /** What `obj.getDynamic(key).asString()` followed by `ret.put(key, ...)` does for one entry. */
  datatype Dynamic =
    | Text(s: string)  // the value reads as the string `s` and is stored
    | NotText          // `asString()` throws; this is not a JSONException, so it escapes the conversion
    | PutRejected      // `put` throws a JSONException, which the conversion catches

  datatype Entry = Entry(key: string, value: Dynamic)

  /** A ReadableMap, in key-set iterator order. */
  type ReadableMap = seq<Entry>

  /** A JSONObject whose values are strings. */
  type JsonObject = map<string, string>

  /** How a Java call ends: it returns a value, or an exception leaves it. */
  datatype Outcome<T> = Returned(value: T) | Threw

  /** A ReadableMap never holds one key twice. */
  predicate DistinctKeys(obj: ReadableMap) {
    forall i, j :: 0 <= i < j < |obj| ==> obj[i].key != obj[j].key
  }

  predicate AllText(obj: ReadableMap) {
    forall i :: 0 <= i < |obj| ==> obj[i].value.Text?
  }

  function Keys(obj: ReadableMap): set<string> {
    set i | 0 <= i < |obj| :: obj[i].key
  }

  /**
    The loop of the conversion, from the entries still to visit and the
    object filled so far: a string is stored under its key, a rejected put
    ends the loop with what was copied, and any other failure escapes.
   */
  function CopyFrom(rest: ReadableMap, json: JsonObject): Outcome<JsonObject>
    decreases |rest|
  {
    if rest == [] then Returned(json)
    else match rest[0].value
      case Text(s) => CopyFrom(rest[1..], json[rest[0].key := s])
      case PutRejected => Returned(json)
      case NotText => Threw
  }

  /** What `readableMapToJSONObject(obj)` ends with. */
  function Converted(obj: ReadableMap): Outcome<JsonObject> {
    CopyFrom(obj, map[])
  }

  /** readableMapToJSONObject: the iterator loop that fills a fresh JSONObject. */
  method ReadableMapToJsonObject(obj: ReadableMap) returns (r: Outcome<JsonObject>)
    ensures r == Converted(obj)
  {
    var ret: JsonObject := map[];
    var i := 0;
    while i < |obj|
      invariant 0 <= i <= |obj|
      invariant CopyFrom(obj[i..], ret) == Converted(obj)
    {
      var entry := obj[i];
      assert obj[i..][1..] == obj[i + 1..];
      match entry.value {
        case Text(s) =>
          ret := ret[entry.key := s];
        case PutRejected =>
          // the JSONException is caught after the loop; what was copied is returned
          return Returned(ret);
        case NotText =>
          return Threw;
      }
      i := i + 1;
    }
    r := Returned(ret);
  }

  /**
    With only string values, the copy holds every key of the input bound to
    its own value, keeps what was there before under the other keys, and
    adds nothing else.
   */
  lemma {:induction false} CopyAllText(rest: ReadableMap, json: JsonObject)
    requires DistinctKeys(rest) && AllText(rest)
    ensures CopyFrom(rest, json).Returned?
    ensures CopyFrom(rest, json).value.Keys == json.Keys + Keys(rest)
    ensures forall i :: 0 <= i < |rest| ==> CopyFrom(rest, json).value[rest[i].key] == rest[i].value.s
    ensures forall k :: k in json && k !in Keys(rest) ==> CopyFrom(rest, json).value[k] == json[k]
  {
    if rest != [] {
      var e, tail := rest[0], rest[1..];
      var json' := json[e.key := e.value.s];
      assert DistinctKeys(tail) by {
        forall i, j | 0 <= i < j < |tail| ensures tail[i].key != tail[j].key {
          assert tail[i] == rest[i + 1] && tail[j] == rest[j + 1];
        }
      }
      CopyAllText(tail, json');
      assert Keys(rest) == {e.key} + Keys(tail) by {
        forall k | k in Keys(rest) ensures k in {e.key} + Keys(tail) {
          var i :| 0 <= i < |rest| && rest[i].key == k;
          if i > 0 { assert tail[i - 1] == rest[i]; }
        }
        forall k | k in Keys(tail) ensures k in Keys(rest) {
          var i :| 0 <= i < |tail| && tail[i].key == k;
          assert rest[i + 1] == tail[i];
        }
      }
      assert e.key !in Keys(tail) by {
        forall i | 0 <= i < |tail| ensures tail[i].key != e.key {
          assert tail[i] == rest[i + 1];
        }
      }
      var r := CopyFrom(tail, json');
      assert CopyFrom(rest, json) == r;
      forall i | 0 <= i < |rest| ensures r.value[rest[i].key] == rest[i].value.s {
        if i > 0 { assert rest[i] == tail[i - 1]; }
      }
    }
  }

  /**
    A map of strings converts to a JSONObject with exactly its keys, each
    bound to its string value (an empty map converts to an empty object).
   */
  lemma ConvertedAllText(obj: ReadableMap)
    requires DistinctKeys(obj) && AllText(obj)
    ensures Converted(obj).Returned?
    ensures Converted(obj).value.Keys == Keys(obj)
    ensures forall i :: 0 <= i < |obj| ==> Converted(obj).value[obj[i].key] == obj[i].value.s
  {
    CopyAllText(obj, map[]);
  }

  /** The order in which the iterator yields the keys does not change the result. */
  lemma ConvertedOrderIrrelevant(obj: ReadableMap, obj': ReadableMap)
    requires DistinctKeys(obj) && DistinctKeys(obj') && AllText(obj)
    requires multiset(obj) == multiset(obj')
    ensures Converted(obj) == Converted(obj')
  {
    assert AllText(obj') by {
      forall j | 0 <= j < |obj'| ensures obj'[j].value.Text? {
        var i := EntryOfPermutation(obj', obj, j);
      }
    }
    ConvertedAllText(obj);
    ConvertedAllText(obj');
    var r, r' := Converted(obj).value, Converted(obj').value;
    forall k | k in r ensures k in r' && r[k] == r'[k] {
      var i :| 0 <= i < |obj| && obj[i].key == k;
      var j := EntryOfPermutation(obj, obj', i);
    }
    forall k | k in r' ensures k in r {
      var j :| 0 <= j < |obj'| && obj'[j].key == k;
      var i := EntryOfPermutation(obj', obj, j);
    }
    assert r == r';
  }

  /** An entry of one ordering sits somewhere in any other ordering of the same entries. */
  lemma EntryOfPermutation(obj: ReadableMap, obj': ReadableMap, i: nat) returns (j: nat)
    requires multiset(obj) == multiset(obj') && i < |obj|
    ensures j < |obj'| && obj'[j] == obj[i]
  {
    assert obj[i] in multiset(obj);
    assert obj[i] in obj';
    j :| 0 <= j < |obj'| && obj'[j] == obj[i];
  }

  /**
    The first entry that is not a string decides the outcome: a value that
    cannot be read as a string makes the whole conversion throw (it is not
    skipped), and a rejected put ends the loop with the keys copied before it.
   */
  lemma {:induction false} CopyStopsAtFirstFailure(rest: ReadableMap, json: JsonObject, k: nat)
    requires k < |rest| && !rest[k].value.Text?
    requires forall j :: 0 <= j < k ==> rest[j].value.Text?
    ensures CopyFrom(rest, json) == if rest[k].value.NotText? then Threw else CopyFrom(rest[..k], json)
  {
    if k > 0 {
      var e := rest[0];
      CopyStopsAtFirstFailure(rest[1..], json[e.key := e.value.s], k - 1);
      assert rest[..k][1..] == rest[1..][..k - 1];
    }
  }

  lemma ConvertedStopsAtFirstFailure(obj: ReadableMap, k: nat)
    requires k < |obj| && !obj[k].value.Text?
    requires forall j :: 0 <= j < k ==> obj[j].value.Text?
    ensures obj[k].value.NotText? ==> Converted(obj) == Threw
    ensures obj[k].value.PutRejected? ==> Converted(obj) == Converted(obj[..k]) && Converted(obj).Returned?
  {
    CopyStopsAtFirstFailure(obj, map[], k);
    if obj[k].value.PutRejected? {
      assert AllText(obj[..k]);
      CopyAllTextReturns(obj[..k], map[]);
    }
  }

  /** Without a failing entry the loop always returns, whatever the keys. */
  lemma {:induction false} CopyAllTextReturns(rest: ReadableMap, json: JsonObject)
    requires AllText(rest)
    ensures CopyFrom(rest, json).Returned?
  {
    if rest != [] {
      CopyAllTextReturns(rest[1..], json[rest[0].key := rest[0].value.s]);
    }
  }
}

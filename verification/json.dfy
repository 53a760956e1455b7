/** The decoded JSON document handed to the streak calculator, and the two
    Python operations the calculator applies to it: subscripting with a
    string key and iterating. */
module JsonValues {
  import opened Wrappers

  /** A decoded JSON value. Objects keep their members in document order;
      numbers are integers (fractional numbers are not part of this model). */
  datatype Json =
    | JNull
    | JBool(b: bool)
    | JNum(n: int)
    | JStr(s: string)
    | JArr(items: seq<Json>)
    | JObj(fields: seq<(string, Json)>)

  /** `j[key]`: only an object can be subscripted with a string; a missing key
      (KeyError) or any other value (TypeError) is a failure. When a member
      name repeats, the decoder keeps the last value, and so does this lookup. */
  function Lookup(j: Json, key: string): (r: Option<Json>)
    ensures r.Some? <==> j.JObj? && exists i :: 0 <= i < |j.fields| && j.fields[i].0 == key
    ensures r.Some? ==> exists i :: 0 <= i < |j.fields| && j.fields[i] == (key, r.value)
                                    && forall k :: i < k < |j.fields| ==> j.fields[k].0 != key
  {
    if !j.JObj? then None
    else
      LastValueMeaning(j.fields, key);
      LastValue(j.fields, key)
  }

  /** The value of the last member named `key`, scanning from the end. */
  function LastValue(fields: seq<(string, Json)>, key: string): Option<Json>
    decreases |fields|
  {
    if |fields| == 0 then None
    else if fields[|fields| - 1].0 == key then Some(fields[|fields| - 1].1)
    else LastValue(fields[..|fields| - 1], key)
  }

  lemma {:induction false} LastValueMeaning(fields: seq<(string, Json)>, key: string)
    ensures LastValue(fields, key).Some? <==> exists i :: 0 <= i < |fields| && fields[i].0 == key
    ensures LastValue(fields, key).Some? ==>
              exists i :: 0 <= i < |fields| && fields[i] == (key, LastValue(fields, key).value)
                          && forall k :: i < k < |fields| ==> fields[k].0 != key
    decreases |fields|
  {
    if |fields| > 0 {
      var n := |fields| - 1;
      if fields[n].0 == key {
        assert fields[n] == (key, LastValue(fields, key).value);
      } else {
        var init := fields[..n];
        LastValueMeaning(init, key);
        if LastValue(init, key).Some? {
          var i :| 0 <= i < |init| && init[i] == (key, LastValue(init, key).value)
                   && forall k :: i < k < |init| ==> init[k].0 != key;
          assert fields[i] == init[i];
          assert forall k :: i < k < |fields| ==> fields[k].0 != key by {
            forall k | i < k < |fields| ensures fields[k].0 != key {
              if k < n {
                assert fields[k] == init[k];
              }
            }
          }
        } else {
          forall i | 0 <= i < |fields| ensures fields[i].0 != key {
            if i < n {
              assert fields[i] == init[i];
            }
          }
        }
      }
    }
  }

  /** The member names of an object as the decoded dictionary holds them:
      each name once, in the order of its first occurrence. */
  function Names(fields: seq<(string, Json)>): seq<string>
    decreases |fields|
  {
    if |fields| == 0 then []
    else
      var init := Names(fields[..|fields| - 1]);
      if fields[|fields| - 1].0 in init then init else init + [fields[|fields| - 1].0]
  }

  /** Iterating a value: a list yields its items, an object its member names and a
      string its one-character strings; numbers, booleans and null raise
      TypeError. */
  function Elements(j: Json): Option<seq<Json>> {
    match j
    case JArr(items) => Some(items)
    case JObj(fields) =>
      var names := Names(fields);
      Some(seq(|names|, i requires 0 <= i < |names| => JStr(names[i])))
    case JStr(s) => Some(seq(|s|, i requires 0 <= i < |s| => JStr([s[i]])))
    case _ => None
  }

  /** The names iteration yields are exactly the names a subscript accepts,
      each one once. */
  lemma {:induction false} NamesAreDistinctKeys(fields: seq<(string, Json)>)
    ensures forall key :: key in Names(fields) <==> Lookup(JObj(fields), key).Some?
    ensures forall a, b :: 0 <= a < b < |Names(fields)| ==> Names(fields)[a] != Names(fields)[b]
    decreases |fields|
  {
    if |fields| > 0 {
      var init := fields[..|fields| - 1];
      NamesAreDistinctKeys(init);
      forall key ensures key in Names(fields) <==> Lookup(JObj(fields), key).Some? {
        if Lookup(JObj(init), key).Some? {
          var i :| 0 <= i < |init| && init[i].0 == key;
          assert fields[i].0 == key;
        }
        if Lookup(JObj(fields), key).Some? && fields[|fields| - 1].0 != key {
          var i :| 0 <= i < |fields| && fields[i].0 == key;
          assert init[i].0 == key;
        }
      }
    }
  }

  /** Iterating an object yields one string per distinct member name, and
      those strings are exactly the subscriptable keys. */
  lemma ObjectIteration(fields: seq<(string, Json)>)
    ensures Elements(JObj(fields)).Some?
    ensures |Elements(JObj(fields)).value| <= |fields|
    ensures forall key :: JStr(key) in Elements(JObj(fields)).value <==> Lookup(JObj(fields), key).Some?
    ensures forall x :: x in Elements(JObj(fields)).value ==> x.JStr?
  {
    NamesAreDistinctKeys(fields);
    NamesLength(fields);
    var names := Names(fields);
    var r := Elements(JObj(fields)).value;
    forall key ensures JStr(key) in r <==> key in names {
      if key in names {
        var i :| 0 <= i < |names| && names[i] == key;
        assert r[i] == JStr(key);
      }
    }
  }

  lemma {:induction false} NamesLength(fields: seq<(string, Json)>)
    ensures |Names(fields)| <= |fields|
    decreases |fields|
  {
    if |fields| > 0 {
      NamesLength(fields[..|fields| - 1]);
    }
  }
}

/** What a JSON parser returns. An object key that is absent reads as null. */
module JsonValues {
  datatype Json =
    | JNull
    | JBool(b: bool)
    | JInt(n: int)
    | JFloat(x: real)
    | JNonFinite                      // NaN or an infinity
    | JStr(s: string)
    | JArr(items: seq<Json>)
    | JObj(fields: map<string, Json>)

  function Get(o: map<string, Json>, name: string): Json {
    if name in o then o[name] else JNull
  }

  /** Arrays and objects within one another, no more than `n` of them. */
  predicate NestedWithin(j: Json, n: nat)
    decreases n
  {
    match j
    case JArr(items) => n > 0 && forall i :: 0 <= i < |items| ==> NestedWithin(items[i], n - 1)
    case JObj(fields) => n > 0 && forall k :: k in fields ==> NestedWithin(fields[k], n - 1)
    case _ => true
  }

  lemma {:induction false} NestedWithinMore(j: Json, n: nat, m: nat)
    requires NestedWithin(j, n) && n <= m
    ensures NestedWithin(j, m)
    decreases n
  {
    match j
    case JArr(items) =>
      forall i | 0 <= i < |items| ensures NestedWithin(items[i], m - 1) {
        NestedWithinMore(items[i], n - 1, m - 1);
      }
    case JObj(fields) =>
      forall k | k in fields ensures NestedWithin(fields[k], m - 1) {
        NestedWithinMore(fields[k], n - 1, m - 1);
      }
    case _ =>
  }

  /** Arrays nested `n` deep. */
  function Nest(n: nat): Json {
    if n == 0 then JNull else JArr([Nest(n - 1)])
  }

  lemma {:induction false} NestIsExact(n: nat, m: nat)
    ensures NestedWithin(Nest(n), m) <==> n <= m
    decreases n
  {
    if n > 0 && m > 0 {
      NestIsExact(n - 1, m - 1);
      assert [Nest(n - 1)][0] == Nest(n - 1);
    }
  }
}

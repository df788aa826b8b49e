/**
 * The part of a JSON document the reports and the configuration readers
 * touch. An object maps each key to one value; the JSON library visits an
 * object's members in ascending key order, the least key (`Least`) first.
 */
module JSON {
  import opened Base

  datatype Json = Null | Bool(b: bool) | Int(i: int) | Num(r: real) | Str(s: string)
                | Arr(items: seq<Json>) | Obj(fields: map<string, Json>)

  /** What reading a configuration value can fail with. */
  datatype JsonError =
    | NotAnObject            // `value()` on something that is not an object
    | NotANumber(key: string)  // the key holds a string, null, an array or an object

  /** C++'s conversion of a floating-point value to an integer: it truncates toward zero. */
  function Trunc(x: real): (n: int)
    ensures x >= 0.0 ==> n as real <= x < n as real + 1.0
    ensures x < 0.0 ==> n as real - 1.0 < x <= n as real
  {
    if x >= 0.0 then x.Floor else -((-x).Floor)
  }

  /**
   * `j.value(key, fallback)` read as an integer: the fallback when the key
   * is absent; an integer as it is, a float truncated, a boolean as 0 or 1;
   * a type error for any other value.
   */
  function IntValue(j: Json, key: string, fallback: int): (r: Result<int, JsonError>)
    ensures r.Err? <==> !j.Obj? || (key in j.fields && !(j.fields[key].Int? || j.fields[key].Num? || j.fields[key].Bool?))
    ensures r.Ok? && key in j.fields && j.fields[key].Int? ==> r.value == j.fields[key].i
    ensures r.Ok? && key in j.fields && j.fields[key].Num? ==> r.value == Trunc(j.fields[key].r)
    ensures r.Ok? && key in j.fields && j.fields[key].Bool? ==> r.value == (if j.fields[key].b then 1 else 0)
    ensures r.Ok? && !(key in j.fields) ==> r.value == fallback
  {
    if !j.Obj? then Err(NotAnObject)
    else if key !in j.fields then Ok(fallback)
    else match j.fields[key]
      case Int(i) => Ok(i)
      case Num(x) => Ok(Trunc(x))
      case Bool(b) => Ok(if b then 1 else 0)
      case _ => Err(NotANumber(key))
  }

  /** `std::string`'s `<`: lexicographic on the characters, a proper prefix first. */
  predicate Less(a: string, b: string)
    decreases |a|
  {
    if a == [] then b != []
    else if b == [] then false
    else a[0] < b[0] || (a[0] == b[0] && Less(a[1..], b[1..]))
  }

  lemma {:induction false} LessIrreflexive(a: string)
    ensures !Less(a, a)
    decreases |a|
  {
    if a != [] {
      LessIrreflexive(a[1..]);
    }
  }

  lemma {:induction false} LessTransitive(a: string, b: string, c: string)
    requires Less(a, b) && Less(b, c)
    ensures Less(a, c)
    decreases |a|
  {
    if a != [] && b != [] && c != [] && a[0] == b[0] && b[0] == c[0] {
      LessTransitive(a[1..], b[1..], c[1..]);
    }
  }

  lemma {:induction false} LessTotal(a: string, b: string)
    ensures a == b || Less(a, b) || Less(b, a)
    decreases |a|
  {
    if a != [] && b != [] && a[0] == b[0] {
      LessTotal(a[1..], b[1..]);
      if a[1..] == b[1..] {
        assert a == [a[0]] + a[1..] && b == [b[0]] + b[1..];
      }
    }
  }

  /** The least key of a non-empty set of keys. */
  predicate IsLeast(k: string, keys: set<string>)
  {
    k in keys && forall k' :: k' in keys && k' != k ==> Less(k, k')
  }

  lemma {:induction false} LeastExists(keys: set<string>)
    requires keys != {}
    ensures exists k :: IsLeast(k, keys)
    decreases |keys|
  {
    var x :| x in keys;
    if keys != {x} {
      var rest := keys - {x};
      LeastExists(rest);
      var y :| IsLeast(y, rest);
      LessTotal(x, y);
      if Less(x, y) {
        forall k' | k' in keys && k' != x ensures Less(x, k') {
          if k' != y {
            LessTransitive(x, y, k');
          }
        }
        assert IsLeast(x, keys);
      } else {
        assert IsLeast(y, keys);
      }
    } else {
      assert IsLeast(x, keys);
    }
  }

  lemma LeastUnique(k: string, k': string, keys: set<string>)
    requires IsLeast(k, keys) && IsLeast(k', keys)
    ensures k == k'
  {
    if k != k' {
      LessTransitive(k, k', k);
      LessIrreflexive(k);
    }
  }

  ghost function Least(keys: set<string>): (k: string)
    requires keys != {}
    ensures IsLeast(k, keys)
  {
    LeastExists(keys);
    var k :| IsLeast(k, keys);
    k
  }
}

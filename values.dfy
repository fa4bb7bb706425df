/** Values that flow between the service and the database: column values,
    rows, and the keyword-argument payloads the service is called with. */
module Values {

  datatype Option<+T> = None | Some(value: T)

  datatype Result<+T, +E> = Success(value: T) | Failure(error: E)

  /** A column value as bound to a statement or fetched from a row.
      Values are opaque tagged data: no coercion between tags is modelled. */
  datatype Value = Null | Bool(b: bool) | Int(i: int) | Text(s: string)

  /** One fetched or stored row, keyed by column name for the model. */
  type Row = map<string, Value>

  /** The value of `column` in `row`; a column the row does not hold reads as NULL. */
  function Get(row: Row, column: string): Value
  {
    if column in row then row[column] else Null
  }

  predicate DistinctKeys(pairs: seq<(string, Value)>)
  {
    forall i, j :: 0 <= i < j < |pairs| ==> pairs[i].0 != pairs[j].0
  }

  /** A keyword-argument dict: column-value pairs in the dict's iteration order. */
  type Kwargs = pairs: seq<(string, Value)> | DistinctKeys(pairs) witness []

  /** `kwargs.keys()` */
  function Keys(kwargs: seq<(string, Value)>): seq<string>
  {
    seq(|kwargs|, i requires 0 <= i < |kwargs| => kwargs[i].0)
  }

  /** `kwargs.values()`, in the same order as `Keys` */
  function ValuesOf(kwargs: seq<(string, Value)>): seq<Value>
  {
    seq(|kwargs|, i requires 0 <= i < |kwargs| => kwargs[i].1)
  }

  lemma KeysCons(kwargs: seq<(string, Value)>)
    requires kwargs != []
    ensures Keys(kwargs) == [kwargs[0].0] + Keys(kwargs[1..])
  {
  }

  /** The dict as a map from column to value. */
  function ToMap(kwargs: seq<(string, Value)>): (m: map<string, Value>)
    ensures forall k :: k in m <==> k in Keys(kwargs)
    ensures DistinctKeys(kwargs) ==> forall i :: 0 <= i < |kwargs| ==> kwargs[i].0 in m && m[kwargs[i].0] == kwargs[i].1
  {
    if kwargs == [] then map[]
    else
      KeysCons(kwargs);
      ToMap(kwargs[1..])[kwargs[0].0 := kwargs[0].1]
  }

  /** `kwargs.update({key: value})`: the key takes the new value. Python
      promises no order for the keys; keeping an existing key in place and
      appending a new one is the model's choice, and no contract depends on it. */
  function SetKey(kwargs: Kwargs, key: string, value: Value): (r: Kwargs)
    ensures forall k :: k in Keys(r) <==> k == key || k in Keys(kwargs)
  {
    if kwargs == [] then
      assert Keys([(key, value)]) == [key];
      [(key, value)]
    else
      KeysCons(kwargs);
      if kwargs[0].0 == key then
        var r := [(key, value)] + kwargs[1..];
        KeysCons(r);
        assert r[1..] == kwargs[1..];
        r
      else
        var rest := SetKey(kwargs[1..], key, value);
        var r := [kwargs[0]] + rest;
        KeysCons(r);
        assert r[1..] == rest;
        assert kwargs[0].0 !in Keys(kwargs[1..]);
        assert forall j :: 0 < j < |r| ==> r[j].0 == Keys(rest)[j - 1];
        r
  }

  lemma {:induction false} SetKeyToMap(kwargs: Kwargs, key: string, value: Value)
    ensures ToMap(SetKey(kwargs, key, value)) == ToMap(kwargs)[key := value]
  {
    if kwargs != [] {
      if kwargs[0].0 != key {
        SetKeyToMap(kwargs[1..], key, value);
        var r := SetKey(kwargs, key, value);
        assert r[1..] == SetKey(kwargs[1..], key, value);
      } else {
        var r := SetKey(kwargs, key, value);
        assert r[1..] == kwargs[1..];
      }
    }
  }
}

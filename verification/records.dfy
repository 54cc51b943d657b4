/** The dictionaries the extraction builds: string keys in insertion order, each with a
    cell value, as a Python `dict` that pandas later turns into one spreadsheet row. */
module Records {
  /** A spreadsheet cell: text, a whole number, or an empty cell (pandas `None`/NaN). */
  datatype Cell = Text(text: string) | Number(number: nat) | Missing

  /** A `dict[str, ...]`: the keys in insertion order, and the value stored for each. */
  datatype Dict = Dict(keys: seq<string>, values: map<string, Cell>)

  predicate Distinct(xs: seq<string>) {
    forall i, j :: 0 <= i < j < |xs| ==> xs[i] != xs[j]
  }

  /** The insertion order lists every key once, and only keys. */
  predicate Valid(d: Dict) {
    Distinct(d.keys) && d.values.Keys == set k | k in d.keys
  }

  /** `d[key] = value`: an existing key keeps its place, a new key goes last. */
  function Put(d: Dict, key: string, value: Cell): (r: Dict)
    requires Valid(d)
    ensures Valid(r)
    ensures r.values == d.values[key := value]
    ensures key in d.keys ==> r.keys == d.keys
    ensures key !in d.keys ==> r.keys == d.keys + [key]
  {
    if key in d.keys then Dict(d.keys, d.values[key := value])
    else Dict(d.keys + [key], d.values[key := value])
  }
}

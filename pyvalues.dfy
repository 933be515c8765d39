/** The untyped Python values that flow through chat histories and the model server's
    replies, with the three operations the core applies to them: `dict.get`, truth
    testing and `str()` / `repr()`. */
module PyValues {
  import opened Wrappers
  import opened PyStrings

  /** A Python value. Dictionaries keep their insertion order and have string keys. */
  datatype PyValue =
    | PyNone
    | PyBool(b: bool)
    | PyInt(i: int)
    | PyStr(s: string)
    | PyList(items: seq<PyValue>)
    | PyTuple(items: seq<PyValue>)
    | PyDict(entries: seq<PyEntry>)

  datatype PyEntry = PyEntry(key: string, value: PyValue)

  /** The exceptions the modelled code can raise on malformed input. */
  datatype PyError =
    | TypeError       // `str + x` for an `x` that is not a string
    | IndexError      // `xs[0]` of an empty list
    | AssertionError  // a failed `assert`

  /** `d.get(key)`: the value stored under `key`, or None. A Python dictionary holds each key
      once, so the first entry with that key is the only one. */
  function Get(entries: seq<PyEntry>, key: string): (r: Option<PyValue>)
    ensures r.Some? <==> exists k :: 0 <= k < |entries| && entries[k].key == key
    ensures r.Some? ==> exists k :: 0 <= k < |entries| && entries[k].key == key && r.value == entries[k].value &&
                          forall j :: 0 <= j < k ==> entries[j].key != key
  {
    if entries == [] then None
    else if entries[0].key == key then Some(entries[0].value)
    else
      var r := Get(entries[1..], key);
      assert forall k :: 1 <= k < |entries| ==> entries[k] == entries[1..][k - 1];
      if r.Some? then
        var k :| 0 <= k < |entries[1..]| && entries[1..][k].key == key && r.value == entries[1..][k].value &&
                 forall j :: 0 <= j < k ==> entries[1..][j].key != key;
        assert entries[k + 1].key == key && r.value == entries[k + 1].value;
        r
      else r
  }

  /** `key in d`. */
  predicate HasKey(entries: seq<PyEntry>, key: string) {
    Get(entries, key).Some?
  }

  /** `bool(v)`. */
  predicate Truthy(v: PyValue) {
    match v
    case PyNone => false
    case PyBool(b) => b
    case PyInt(i) => i != 0
    case PyStr(s) => s != []
    case PyList(items) => items != []
    case PyTuple(items) => items != []
    case PyDict(entries) => entries != []
  }

  function HexDigit(d: nat): char
    requires d < 16
  {
    "0123456789abcdef"[d]
  }

  /** How `repr` writes one character of a string quoted with `quote`. */
  function EscapeChar(c: char, quote: char): string {
    if c == '\\' then "\\\\"
    else if c == quote then ['\\', quote]
    else if c == '\n' then "\\n"
    else if c == '\r' then "\\r"
    else if c == '\t' then "\\t"
    else if c < ' ' || c == '\U{7f}' then "\\x" + [HexDigit(c as int / 16), HexDigit(c as int % 16)]
    else [c]
  }

  function EscapeChars(s: string, quote: char): string {
    if s == [] then [] else EscapeChar(s[0], quote) + EscapeChars(s[1..], quote)
  }

  /** `repr(s)` of a string: single quotes, unless the text holds a single quote and no double one. */
  function QuoteString(s: string): (r: string)
    ensures |r| >= 2
  {
    var quote := if '\'' in s && '"' !in s then '"' else '\'';
    [quote] + EscapeChars(s, quote) + [quote]
  }

  /** `repr(v)`. */
  function Repr(v: PyValue): (r: string)
    ensures |r| >= 1
    decreases v
  {
    match v
    case PyNone => "None"
    case PyBool(b) => if b then "True" else "False"
    case PyInt(i) => IntToString(i)
    case PyStr(s) => QuoteString(s)
    case PyList(items) =>
      "[" + Join(seq(|items|, k requires 0 <= k < |items| => Repr(items[k])), ", ") + "]"
    case PyTuple(items) =>
      "(" + Join(seq(|items|, k requires 0 <= k < |items| => Repr(items[k])), ", ")
      + (if |items| == 1 then "," else "") + ")"
    case PyDict(entries) =>
      "{" + Join(seq(|entries|, k requires 0 <= k < |entries| =>
                       QuoteString(entries[k].key) + ": " + Repr(entries[k].value)), ", ") + "}"
  }

  /** `str(v)`: a string is itself, every other value is its `repr`. */
  function Str(v: PyValue): (r: string)
    ensures v.PyStr? ==> r == v.s
    ensures !v.PyStr? ==> r == Repr(v)
  {
    if v.PyStr? then v.s else Repr(v)
  }

  /** A `str(list)` is never empty: it holds at least the brackets. */
  lemma ReprOfListBracketed(items: seq<PyValue>)
    ensures var r := Repr(PyList(items)); |r| >= 2 && r[0] == '[' && r[|r| - 1] == ']'
  {
  }
}

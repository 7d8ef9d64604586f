/**
 * Python runtime values as they flow through the redaction engine and the
 * handlers: `None`, booleans, integers, strings, lists and dictionaries.
 * A dictionary is its entries in insertion order, as Python keeps them.
 */
module PyValue {
  import opened Wrappers
  import opened PyText

  datatype Value =
    | VNone
    | VBool(b: bool)
    | VInt(i: int)
    | VStr(s: string)
    | VList(items: seq<Value>)
    | VDict(entries: seq<Entry>)

  datatype Entry = Entry(key: string, val: Value)

  type Dict = seq<Entry>

  /** Python truthiness (`if v:`). */
  predicate Truthy(v: Value)
  {
    match v
    case VNone => false
    case VBool(b) => b
    case VInt(i) => i != 0
    case VStr(s) => s != []
    case VList(items) => items != []
    case VDict(entries) => entries != []
  }

  /** Truthiness of an optional string: present and non-empty. */
  predicate Given(o: Option<string>) { o.Some? && o.value != [] }

  function Keys(d: Dict): (ks: seq<string>)
    ensures |ks| == |d| && forall i :: 0 <= i < |d| ==> ks[i] == d[i].key
  {
    if d == [] then [] else [d[0].key] + Keys(d[1..])
  }

  /** Keys of a Python dict are distinct. */
  predicate UniqueKeys(d: Dict)
  {
    forall i, j :: 0 <= i < j < |d| ==> d[i].key != d[j].key
  }

  /** `d.get(k)`: the value stored under `k`, if any. */
  function Get(d: Dict, k: string): (r: Option<Value>)
    ensures r.None? <==> k !in Keys(d)
    ensures r.Some? ==> exists i :: 0 <= i < |d| && d[i] == Entry(k, r.value)
  {
    if d == [] then None
    else if d[0].key == k then Some(d[0].val)
    else Get(d[1..], k)
  }

  /** The entries of `d` without key `k` (`dict.pop(k)` on the rest). */
  function Without(d: Dict, k: string): (r: Dict)
    ensures k !in Keys(r)
    ensures forall e :: e in r <==> e in d && e.key != k
  {
    if d == [] then []
    else if d[0].key == k then Without(d[1..], k)
    else [d[0]] + Without(d[1..], k)
  }

  /** `d[k] = v`: an existing key keeps its place and takes the new value; a new
      key goes last. */
  function Put(d: Dict, k: string, v: Value): (r: Dict)
    ensures Keys(r) == if k in Keys(d) then Keys(d) else Keys(d) + [k]
  {
    if d == [] then [Entry(k, v)]
    else if d[0].key == k then [Entry(k, v)] + d[1..]
    else [d[0]] + Put(d[1..], k, v)
  }

  /** `{**d, **more}`: the entries of `more` put into `d` one after another. */
  function Update(d: Dict, more: Dict): Dict
    decreases |more|
  {
    if more == [] then d else Update(Put(d, more[0].key, more[0].val), more[1..])
  }

  // ---------------------------------------------------------------------
  // repr() and str(), for ASCII text

  function HexDigit(n: nat): char
    requires n < 16
  {
    if n < 10 then ('0' as int + n) as char else ('a' as int + n - 10) as char
  }

  /** The escape Python's `repr` writes for one character inside quotes `q`. */
  function EscapeChar(c: char, q: char): (r: string)
    ensures |r| >= 1
    ensures r == [c] || r[0] == '\\'
  {
    if c == q || c == '\\' then ['\\', c]
    else if c == '\t' then "\\t"
    else if c == '\n' then "\\n"
    else if c == '\r' then "\\r"
    else if c < ' ' || c == '\U{7f}' then ['\\', 'x', HexDigit(c as int / 16), HexDigit(c as int % 16)]
    else [c]
  }

  function Escape(s: string, q: char): string
  {
    if s == [] then [] else EscapeChar(s[0], q) + Escape(s[1..], q)
  }

  lemma {:induction false} EscapeAppend(a: string, b: string, q: char)
    ensures Escape(a + b, q) == Escape(a, q) + Escape(b, q)
    decreases |a|
  {
    if a != [] {
      assert (a + b)[1..] == a[1..] + b;
      EscapeAppend(a[1..], b, q);
    } else {
      assert a + b == b;
    }
  }

  /** Characters that `repr` writes as themselves whatever the quote. */
  predicate Plain(c: char) { IsLetter(c) || IsDigit(c) || c == '_' }

  lemma {:induction false} EscapePlain(s: string, q: char)
    requires forall i :: 0 <= i < |s| ==> Plain(s[i])
    requires q == '\'' || q == '"'
    ensures Escape(s, q) == s
    decreases |s|
  {
    if s != [] { EscapePlain(s[1..], q); }
  }

  /** `repr` of a string: single quotes unless the text holds a single quote and
      no double quote. */
  function StrRepr(s: string): string
  {
    var q := if '\'' in s && '"' !in s then '"' else '\'';
    [q] + Escape(s, q) + [q]
  }

  function NatRepr(n: nat): (r: string)
    ensures r != []
    decreases n
  {
    if n < 10 then [HexDigit(n)] else NatRepr(n / 10) + [HexDigit(n % 10)]
  }

  function IntRepr(i: int): string
  {
    if i < 0 then "-" + NatRepr(-i) else NatRepr(i)
  }

  /** Python's `repr(v)`. */
  function Repr(v: Value): string
    decreases v, 1
  {
    match v
    case VNone => "None"
    case VBool(b) => if b then "True" else "False"
    case VInt(i) => IntRepr(i)
    case VStr(s) => StrRepr(s)
    case VList(items) => "[" + ReprItems(items) + "]"
    case VDict(entries) => "{" + ReprEntries(entries) + "}"
  }

  function ReprItems(items: seq<Value>): string
    decreases items, 0
  {
    if items == [] then ""
    else if |items| == 1 then Repr(items[0])
    else Repr(items[0]) + ", " + ReprItems(items[1..])
  }

  function ReprEntries(entries: seq<Entry>): string
    decreases entries, 0
  {
    if entries == [] then ""
    else
      var e := entries[0];
      var first := StrRepr(e.key) + ": " + Repr(e.val);
      if |entries| == 1 then first else first + ", " + ReprEntries(entries[1..])
  }

  /** Python's `str(v)`: a string is itself, anything else its `repr`. */
  function Str(v: Value): (r: string)
    ensures v.VStr? ==> r == v.s
  {
    if v.VStr? then v.s else Repr(v)
  }

  /** `str(d)` of a dictionary. */
  function DictStr(d: Dict): string
  {
    Repr(VDict(d))
  }
}

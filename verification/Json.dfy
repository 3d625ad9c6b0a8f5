/** Parsed JSON documents and the reading of their fields, as Python sees them. */
module Json {
  import opened Wrappers

  /** The names that the manifest code looks up, and all others. */
  datatype Key =
    | Format | GeneratedBy | Agent | Namespace | Mode | Nodes | Edges | Pass | SourceRevision
    | Id | StorageId | Kind | Name | Source | Target | Relation | Status | Confidence
    | Evidence | Path | StartLine | Metadata | Reason | Technology | Module | Owner
    | FlowId | Action | Branch | Channel | Topic | Route | MessageType | ExportReference
    | Other(name: string)

  type Object = map<Key, Value>

  /** Numbers are integers here. */
  datatype Value = Null | Bool(flag: bool) | Num(n: int) | Str(s: string) | Arr(items: seq<Value>) | Obj(fields: Object)

  /** `fields.get(key)`. */
  function Get(fields: Object, key: Key): Value {
    if key in fields then fields[key] else Null
  }

  function GetOr(fields: Object, key: Key, default: Value): Value {
    if key in fields then fields[key] else default
  }

  predicate Truthy(v: Value) {
    match v
    case Null => false
    case Bool(b) => b
    case Num(n) => n != 0
    case Str(s) => s != ""
    case Arr(items) => items != []
    case Obj(fields) => fields != map[]
  }

  function OptStr(v: Option<string>): Value { if v.Some? then Str(v.value) else Null }

  function ObjectOf(v: Value): Option<Object> { if v.Obj? then Some(v.fields) else None }

  function StrOf(v: Value): Option<string> { if v.Str? then Some(v.s) else None }

  // ----- strip()

  /** The characters that `str.strip` removes. */
  predicate IsSpace(c: char) {
    var n := c as int;
    || 9 <= n <= 13 || 28 <= n <= 32 || n == 0x85 || n == 0xA0 || n == 0x1680
    || 0x2000 <= n <= 0x200A || n == 0x2028 || n == 0x2029 || n == 0x202F || n == 0x205F || n == 0x3000
  }

  /** Tab to carriage return, the four separators, blank, and the spaces beyond ASCII. */
  const SPACES := [
    '\t', '\n', '\U{B}', '\U{C}', '\r', '\U{1C}', '\U{1D}', '\U{1E}', '\U{1F}', ' ', '\U{85}', '\U{A0}', '\U{1680}',
    '\U{2000}', '\U{2001}', '\U{2002}', '\U{2003}', '\U{2004}', '\U{2005}', '\U{2006}', '\U{2007}', '\U{2008}', '\U{2009}', '\U{200A}',
    '\U{2028}', '\U{2029}', '\U{202F}', '\U{205F}', '\U{3000}']

  lemma SpacesAre(c: char)
    ensures IsSpace(c) <==> c in SPACES
  {
    if IsSpace(c) {
      var n := c as int;
      var i :=
        if n <= 13 then n - 9 else if n <= 32 then n - 23 else if n == 0x85 then 10 else if n == 0xA0 then 11 else if n == 0x1680 then 12
        else if n <= 0x200A then n - 0x2000 + 13 else if n <= 0x2029 then n - 0x2028 + 24 else if n == 0x202F then 26 else if n == 0x205F then 27 else 28;
      assert SPACES[i] as int == n;
    }
  }

  function StripLeft(s: string): string {
    if s != "" && IsSpace(s[0]) then StripLeft(s[1..]) else s
  }

  function StripRight(s: string): string {
    if s != "" && IsSpace(s[|s| - 1]) then StripRight(s[..|s| - 1]) else s
  }

  function Strip(s: string): string { StripRight(StripLeft(s)) }

  predicate Blank(s: string) { Strip(s) == "" }

  predicate Trimmed(s: string) { s == "" || (!IsSpace(s[0]) && !IsSpace(s[|s| - 1])) }

  lemma {:induction false} StripLeftTrims(s: string)
    ensures StripLeft(s) == "" || !IsSpace(StripLeft(s)[0])
  {
    if s != "" && IsSpace(s[0]) { StripLeftTrims(s[1..]); }
  }

  lemma {:induction false} StripRightTrims(s: string)
    requires s == "" || !IsSpace(s[0])
    ensures Trimmed(StripRight(s)) && (s != "" ==> StripRight(s) != "")
  {
    if s != "" && IsSpace(s[|s| - 1]) { StripRightTrims(s[..|s| - 1]); }
  }

  /** Stripping leaves no space at either end, and changes exactly the other strings. */
  lemma StripTrims(s: string)
    ensures Trimmed(Strip(s)) && Strip(Strip(s)) == Strip(s)
    ensures Strip(s) == s <==> Trimmed(s)
  {
    StripLeftTrims(s);
    StripRightTrims(StripLeft(s));
  }
}

/** The few JavaScript semantics the route handlers rely on: what a request
    field can hold, when it is truthy, `String.prototype.trim`, and the host
    coercions (`isNaN`, `parseInt`, `Date.parse`, `toDateString`), which are
    passed in as a `Host` value rather than modelled character by character. */
module Js {

  /** A field of `req.body` or `req.query`: missing (`undefined`), a string, or
      any other JSON / query-string value (number, boolean, null, array,
      object), of which only its truthiness and its JSON text are kept. */
  datatype Value = Absent | Str(s: string) | NonString(truthy: bool, json: string)

  /** JavaScript truthiness: `undefined` and `""` are falsy, a non-empty string
      is truthy, any other value says for itself. */
  predicate Truthy(v: Value) {
    match v
    case Absent => false
    case Str(s) => s != ""
    case NonString(t, _) => t
  }

  /** A JavaScript number as the handlers see it: NaN, or an integer
      (`parseInt` results and millisecond timestamps are integers). The
      `Infinity` that `parseInt` gives for a digit string too long for a
      double is not representable. */
  datatype Num = NaN | Int(n: int)

  /** The host functions whose full coercion rules are not modelled:
      `isNaN(v)`, `parseInt(v)`, `Date.parse(v)` (also the time value of
      `new Date(v)`), and `Date.prototype.toDateString` on a timestamp. */
  datatype Host = Host(
    isNaN: Value -> bool,
    parseInt: Value -> Num,
    parseDate: Value -> Num,
    dateString: int -> string)

  /** The characters `String.prototype.trim` removes: ECMAScript WhiteSpace
      and LineTerminator. */
  predicate IsSpace(c: char) {
    || c == '\t' || c == '\n' || c == '\U{B}' || c == '\U{C}' || c == '\r'
    || c == ' ' || c == '\U{A0}' || c == '\U{1680}'
    || ('\U{2000}' <= c <= '\U{200A}')
    || c == '\U{2028}' || c == '\U{2029}' || c == '\U{202F}' || c == '\U{205F}'
    || c == '\U{3000}' || c == '\U{FEFF}'
  }

  predicate AllSpace(s: string) {
    forall i :: 0 <= i < |s| ==> IsSpace(s[i])
  }

  /** Neither end of `s` is a trimmable character. */
  predicate IsTrimmed(s: string) {
    s == [] || (!IsSpace(s[0]) && !IsSpace(s[|s| - 1]))
  }

  /** How many trimmable characters `s` starts with. */
  function LeadingSpaces(s: string): (n: nat)
    ensures n <= |s|
    ensures forall k :: 0 <= k < n ==> IsSpace(s[k])
    ensures n < |s| ==> !IsSpace(s[n])
    decreases |s|
  {
    if s != [] && IsSpace(s[0]) then 1 + LeadingSpaces(s[1..]) else 0
  }

  /** How many trimmable characters `s` ends with. */
  function TrailingSpaces(s: string): (n: nat)
    ensures n <= |s|
    ensures forall k :: |s| - n <= k < |s| ==> IsSpace(s[k])
    ensures n < |s| ==> !IsSpace(s[|s| - n - 1])
    decreases |s|
  {
    if s != [] && IsSpace(s[|s| - 1]) then 1 + TrailingSpaces(s[..|s| - 1]) else 0
  }

  /** `String.prototype.trim`: drop trimmable characters at both ends. */
  function Trim(s: string): string {
    var i := LeadingSpaces(s);
    var j := |s| - TrailingSpaces(s[i..]);
    s[i..j]
  }

  /** The guard the handlers put on a required text field: a truthy string
      that is not blank once trimmed. */
  predicate NonBlankString(v: Value) {
    !(!Truthy(v) || !v.Str? || Trim(v.s) == "")
  }

  /** What trim leaves is a middle slice of the input whose ends are not
      trimmable, and everything it cut off was trimmable. */
  lemma TrimSlice(s: string)
    ensures IsTrimmed(Trim(s))
    ensures exists i, j :: 0 <= i <= j <= |s| && Trim(s) == s[i..j]
                           && AllSpace(s[..i]) && AllSpace(s[j..])
  {
    var i := LeadingSpaces(s);
    var t := s[i..];
    var j := |s| - TrailingSpaces(t);
    assert s[j..] == t[|t| - TrailingSpaces(t)..];
    assert Trim(s) == s[i..j];
    if i < j {
      assert Trim(s)[0] == s[i];
      assert Trim(s)[|Trim(s)| - 1] == t[|t| - TrailingSpaces(t) - 1];
    }
  }

  /** Trimming a string whose ends are not trimmable changes nothing, so
      trimming twice is trimming once. */
  lemma TrimTrimmed(s: string)
    requires IsTrimmed(s)
    ensures Trim(s) == s
  {
    if s != [] {
      assert LeadingSpaces(s) == 0;
      assert TrailingSpaces(s) == 0;
    }
  }

  lemma TrimIdempotent(s: string)
    ensures Trim(Trim(s)) == Trim(s)
  {
    TrimSlice(s);
    TrimTrimmed(Trim(s));
  }

  /** `s.trim() === ''` exactly when every character of `s` is trimmable. */
  lemma TrimEmptyIffAllSpace(s: string)
    ensures Trim(s) == [] <==> AllSpace(s)
  {
    TrimSlice(s);
    var i, j :| 0 <= i <= j <= |s| && Trim(s) == s[i..j] && AllSpace(s[..i]) && AllSpace(s[j..]);
    if Trim(s) == [] {
      forall k | 0 <= k < |s| ensures IsSpace(s[k]) {
        if k < i { assert s[k] == s[..i][k]; } else { assert s[k] == s[j..][k - j]; }
      }
    } else {
      assert s[i] == Trim(s)[0];
    }
  }
}

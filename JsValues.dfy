/**
 * The few JavaScript value semantics the handlers and components depend on:
 * truthiness, `a || b`, optional chaining `v?._id`, `String(v)`, strict
 * equality against a string, and `String.prototype.trim`.
 *
 * A value that can be an id is either missing (`undefined` or `null`), a
 * string, or an object (a populated user document) that may carry a string
 * `_id`.
 */
module JsValues {

  datatype JsVal = Undefined | Null | Str(s: string) | Obj(id: IdField)

  /** The `_id` field of a populated object: present with a string, or absent. */
  datatype IdField = NoId | StrId(value: string)

  /** JavaScript truthiness: `undefined`, `null` and `""` are falsy. */
  predicate Truthy(v: JsVal)
  {
    match v
    case Undefined => false
    case Null => false
    case Str(s) => s != ""
    case Obj(_) => true
  }

  /** `a || b`: the first operand when it is truthy, else the second. */
  function Or(a: JsVal, b: JsVal): (r: JsVal)
    ensures Truthy(a) ==> r == a
    ensures !Truthy(a) ==> r == b
  {
    if Truthy(a) then a else b
  }

  /** `v?._id`: only an object with an `_id` yields a value; a string has no `_id`. */
  function IdOf(v: JsVal): (r: JsVal)
    ensures r != Null
    ensures r.Str? <==> v.Obj? && v.id.StrId?
    ensures r.Str? ==> r.s == v.id.value
  {
    match v
    case Obj(StrId(s)) => Str(s)
    case _ => Undefined
  }

  /** `String(v)`. */
  function ToString(v: JsVal): (r: string)
    ensures v.Str? ==> r == v.s
  {
    match v
    case Undefined => "undefined"
    case Null => "null"
    case Str(s) => s
    case Obj(_) => "[object Object]"
  }

  /** `v === s` for a string `s`: only a string value can be strictly equal to it. */
  predicate StrictEqStr(v: JsVal, s: string)
  {
    v == Str(s)
  }

  /** Strict equality to a string implies equality after `String(...)`. */
  lemma StrictEqImpliesStringEq(v: JsVal, s: string)
    requires StrictEqStr(v, s)
    ensures ToString(v) == s
  {
  }

  /** The two can differ: a populated object is never `===` a string, yet prints as one. */
  lemma StringEqWithoutStrictEq()
    ensures ToString(Obj(NoId)) == "[object Object]" && !StrictEqStr(Obj(NoId), "[object Object]")
  {
  }

  /** A field of a JSON request body: absent, present but not a string, or a string. */
  datatype BodyField = Missing | NotString | Text(s: string)

  /** A field passes `!x || typeof x !== 'string' || x.trim() === ''` negated: a non-blank string. */
  predicate Filled(f: BodyField)
  {
    f.Text? && Trim(f.s) != ""
  }

  /**
   * The characters `trim` removes: ECMAScript WhiteSpace (tab, vertical tab,
   * form feed, space, no-break space, byte order mark and the other Unicode
   * space separators) and LineTerminator (line feed, carriage return, line
   * and paragraph separators).
   */
  predicate IsWhitespace(c: char)
  {
    || c == '\U{0009}' || c == '\U{000B}' || c == '\U{000C}' || c == '\U{0020}'
    || c == '\U{00A0}' || c == '\U{FEFF}' || c == '\U{1680}'
    || ('\U{2000}' <= c <= '\U{200A}') || c == '\U{202F}' || c == '\U{205F}' || c == '\U{3000}'
    || c == '\U{000A}' || c == '\U{000D}' || c == '\U{2028}' || c == '\U{2029}'
  }

  /** Every character of `s` is whitespace (this includes the empty string). */
  predicate AllWhitespace(s: string)
  {
    forall k :: 0 <= k < |s| ==> IsWhitespace(s[k])
  }

  /** Drops the leading whitespace of `s`: the longest suffix that does not start with whitespace. */
  function TrimStart(s: string): (r: string)
    ensures |r| <= |s|
    ensures r == [] || !IsWhitespace(r[0])
    ensures AllWhitespace(s[..|s| - |r|])
  {
    if s == [] || !IsWhitespace(s[0]) then s
    else
      var r := TrimStart(s[1..]);
      assert s[..|s| - |r|] == [s[0]] + s[1..][..|s| - 1 - |r|];
      r
  }

  /** Drops the trailing whitespace of `s`: the longest prefix that does not end with whitespace. */
  function TrimEnd(s: string): (r: string)
    ensures |r| <= |s|
    ensures r == [] || !IsWhitespace(r[|r| - 1])
    ensures AllWhitespace(s[|r|..])
  {
    if s == [] || !IsWhitespace(s[|s| - 1]) then s
    else
      var r := TrimEnd(s[..|s| - 1]);
      assert s[|r|..] == s[..|s| - 1][|r|..] + [s[|s| - 1]];
      r
  }

  /** TrimStart keeps a suffix of its input. */
  lemma {:induction false} TrimStartSuffix(s: string)
    ensures TrimStart(s) == s[|s| - |TrimStart(s)|..]
  {
    if s != [] && IsWhitespace(s[0]) {
      TrimStartSuffix(s[1..]);
    }
  }

  /** TrimEnd keeps a prefix of its input. */
  lemma {:induction false} TrimEndPrefix(s: string)
    ensures TrimEnd(s) == s[..|TrimEnd(s)|]
  {
    if s != [] && IsWhitespace(s[|s| - 1]) {
      TrimEndPrefix(s[..|s| - 1]);
    }
  }

  /** `s.trim()`. */
  function Trim(s: string): (r: string)
  {
    TrimEnd(TrimStart(s))
  }

  /** `s.trim() === ""` exactly when `s` is made of whitespace only. */
  lemma {:induction false} TrimEmptyIffBlank(s: string)
    ensures Trim(s) == "" <==> AllWhitespace(s)
  {
    var t := TrimStart(s);
    TrimStartSuffix(s);
    if t == [] {
      assert s[..|s|] == s;
    } else {
      assert t[0] == s[|s| - |t|];
      assert t[0..] == t;
    }
  }

  /** A trimmed string has neither leading nor trailing whitespace, and is a slice of the input. */
  lemma {:induction false} TrimShape(s: string)
    ensures var r := Trim(s);
      && (r == [] || (!IsWhitespace(r[0]) && !IsWhitespace(r[|r| - 1])))
      && var i := |s| - |TrimStart(s)|; i + |r| <= |s| && r == s[i..i + |r|]
  {
    var t := TrimStart(s);
    var r := TrimEnd(t);
    var i := |s| - |t|;
    TrimStartSuffix(s);
    TrimEndPrefix(t);
    assert t == s[i..];
    assert r == t[..|r|];
    SliceOfSuffix(s, i, |r|);
    if r != [] {
      assert r[0] == t[0];
    }
  }

  /** A prefix of a suffix is a slice. */
  lemma SliceOfSuffix(s: string, i: nat, n: nat)
    requires i + n <= |s|
    ensures s[i..][..n] == s[i..i + n]
  {
  }

  /** Trimming is idempotent: what handlers store after `trim()` is already trimmed. */
  lemma {:induction false} TrimIdempotent(s: string)
    ensures Trim(Trim(s)) == Trim(s)
  {
    TrimShape(s);
    var r := Trim(s);
    if r != [] {
      assert TrimStart(r) == r;
      assert TrimEnd(r) == r;
    }
  }
}

/** Values stored in the accident-report form data, and the JavaScript notions
    the form engine applies to them: truthiness, `String.prototype.trim`,
    the "empty field" rule, `Array.prototype.join`, and order-preserving
    subsequences (the shape of every `filter` in the engine). */
module FormValues {

  datatype Option<T> = None | Some(value: T)

  /** A form-data value: a missing entry reads as `undefined`; text-like
      fields hold strings, checkbox groups hold arrays of option values. */
  datatype Value = Undefined | Str(s: string) | List(items: seq<string>)

  /** The form data: field name to value. */
  type FormData = map<string, Value>

  /** A synthetic change event `{ target: { name, value, type } }`. */
  datatype ChangeEvent = ChangeEvent(name: string, value: Value, kind: string)

  /** `formData[name]`, which is `undefined` for a missing key. */
  function Get(d: FormData, name: string): Value
  {
    if name in d then d[name] else Undefined
  }

  /** JavaScript truthiness: `undefined` and `""` are falsy, every array
      (even an empty one) is truthy. */
  predicate Truthy(v: Value)
  {
    match v
    case Undefined => false
    case Str(s) => s != ""
    case List(_) => true
  }

  /** The characters `trim()` strips and `\s` matches: WhiteSpace and
      LineTerminator of ECMAScript (tab, VT, FF, space, NBSP, BOM, the Zs
      category, LF, CR, LS, PS). */
  predicate IsWhitespace(c: char)
  {
    c == '\t' || c == '\n' || c == '\U{000B}' || c == '\U{000C}' || c == '\r' || c == ' '
    || c == '\U{00A0}' || c == '\U{1680}' || ('\U{2000}' <= c <= '\U{200A}')
    || c == '\U{2028}' || c == '\U{2029}' || c == '\U{202F}' || c == '\U{205F}'
    || c == '\U{3000}' || c == '\U{FEFF}'
  }

  predicate AllWhitespace(s: string)
  {
    forall i | 0 <= i < |s| :: IsWhitespace(s[i])
  }

  function TrimStart(s: string): string
  {
    if |s| > 0 && IsWhitespace(s[0]) then TrimStart(s[1..]) else s
  }

  function TrimEnd(s: string): string
  {
    if |s| > 0 && IsWhitespace(s[|s| - 1]) then TrimEnd(s[..|s| - 1]) else s
  }

  /** `s.trim()` */
  function Trim(s: string): string
  {
    TrimEnd(TrimStart(s))
  }

  lemma {:induction false} TrimStartBlank(s: string)
    ensures TrimStart(s) == "" <==> AllWhitespace(s)
    ensures TrimStart(s) != "" ==> !IsWhitespace(TrimStart(s)[0])
    decreases |s|
  {
    if |s| > 0 && IsWhitespace(s[0]) {
      TrimStartBlank(s[1..]);
      assert AllWhitespace(s[1..]) ==> AllWhitespace(s) by {
        if AllWhitespace(s[1..]) {
          forall i | 0 <= i < |s| ensures IsWhitespace(s[i]) {
            if i > 0 { assert s[i] == s[1..][i - 1]; }
          }
        }
      }
    }
  }

  lemma {:induction false} TrimEndBlank(s: string)
    ensures TrimEnd(s) == "" <==> AllWhitespace(s)
    decreases |s|
  {
    if |s| > 0 && IsWhitespace(s[|s| - 1]) {
      var t := s[..|s| - 1];
      TrimEndBlank(t);
      assert AllWhitespace(t) ==> AllWhitespace(s) by {
        if AllWhitespace(t) {
          forall i | 0 <= i < |s| ensures IsWhitespace(s[i]) {
            if i < |s| - 1 { assert s[i] == t[i]; }
          }
        }
      }
    }
  }

  /** `s.trim() === ""` holds exactly for strings made only of whitespace. */
  lemma TrimBlankIff(s: string)
    ensures Trim(s) == "" <==> AllWhitespace(s)
  {
    TrimStartBlank(s);
    TrimEndBlank(TrimStart(s));
  }

  /** The emptiness rule shared by completion counting, the incomplete list
      and the form renderer: falsy, a whitespace-only string, or an empty
      array. */
  predicate IsEmpty(v: Value)
  {
    !Truthy(v)
    || (v.Str? && Trim(v.s) == "")
    || (v.List? && |v.items| == 0)
  }

  /** The emptiness rule, case by case. */
  lemma IsEmptyIff(v: Value)
    ensures v.Undefined? ==> IsEmpty(v)
    ensures v.Str? ==> (IsEmpty(v) <==> AllWhitespace(v.s))
    ensures v.List? ==> (IsEmpty(v) <==> v.items == [])
  {
    if v.Str? {
      TrimBlankIff(v.s);
    }
  }

  /** `items.join(sep)` */
  function Join(items: seq<string>, sep: string): string
  {
    if |items| == 0 then ""
    else if |items| == 1 then items[0]
    else items[0] + sep + Join(items[1..], sep)
  }

  /** Joining appends one separator and the new item at the end, so the
      items appear in their stored order. */
  lemma {:induction false} JoinSnoc(items: seq<string>, x: string, sep: string)
    requires items != []
    ensures Join(items + [x], sep) == Join(items, sep) + sep + x
    decreases |items|
  {
    if |items| == 1 {
      assert items + [x] == [items[0], x];
    } else {
      assert (items + [x])[1..] == items[1..] + [x];
      JoinSnoc(items[1..], x, sep);
    }
  }

  /** `a` is obtained from `b` by deleting elements, keeping the order. */
  ghost predicate IsSubsequence<T>(a: seq<T>, b: seq<T>)
    decreases |b|
  {
    if b == [] then a == []
    else (a != [] && a[0] == b[0] && IsSubsequence(a[1..], b[1..])) || IsSubsequence(a, b[1..])
  }

  lemma {:induction false} SubsequenceMembers<T>(a: seq<T>, b: seq<T>)
    requires IsSubsequence(a, b)
    ensures forall x | x in a :: x in b
    ensures |a| <= |b|
    decreases |b|
  {
    if b != [] {
      if a != [] && a[0] == b[0] && IsSubsequence(a[1..], b[1..]) {
        SubsequenceMembers(a[1..], b[1..]);
        forall x | x in a ensures x in b {
          if x != a[0] { assert x in a[1..]; }
        }
      } else {
        SubsequenceMembers(a, b[1..]);
      }
    }
  }
}

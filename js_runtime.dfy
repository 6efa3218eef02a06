/**
 The pieces of JavaScript semantics that the dashboard's rules depend on: the values a
 shopping-result record or a translation variable can hold, truthiness (`||`, `if (!x)`),
 nullishness (`??`), the white space that `String.prototype.trim` and the regular-expression
 class `\s` recognise, the word characters of `\w`, and the insertion-ordered `Set`.
 */
module JsRuntime {

  datatype Option<T> = None | Some(value: T)

  /** A JavaScript value as far as the modelled code inspects it. Numbers are exact reals;
      NaN, the infinities, objects and functions are not represented. */
  datatype JsValue = Undefined | Null | Bool(b: bool) | Num(x: real) | Str(s: string)

  /** The values whose string conversion `String(v)` is modelled: every value but a number. */
  type TextValue = v: JsValue | !v.Num? witness Undefined

  /** `v ?? d` falls through to `d` exactly for these two values. */
  predicate IsNullish(v: JsValue) {
    v.Undefined? || v.Null?
  }

  /** JavaScript truthiness: undefined, null, false, 0 and '' are falsy. */
  predicate Truthy(v: JsValue) {
    match v
    case Undefined => false
    case Null => false
    case Bool(b) => b
    case Num(x) => x != 0.0
    case Str(s) => s != ""
  }

  /** `a || b` */
  function Or(a: JsValue, b: JsValue): JsValue {
    if Truthy(a) then a else b
  }

  /** `String(v)` */
  function ToJsString(v: TextValue): string {
    if v.Str? then v.s
    else if v.Bool? then (if v.b then "true" else "false")
    else if v.Null? then "null"
    else "undefined"
  }

  /** The characters of ECMAScript's WhiteSpace and LineTerminator productions: what `trim`
      removes and what `\s` matches. */
  predicate IsJsWhitespace(c: char) {
    c == '\t' || c == '\n' || c == '\U{000B}' || c == '\U{000C}' || c == '\r' || c == ' '
    || c == '\U{00A0}' || c == '\U{1680}' || ('\U{2000}' <= c <= '\U{200A}')
    || c == '\U{2028}' || c == '\U{2029}' || c == '\U{202F}' || c == '\U{205F}'
    || c == '\U{3000}' || c == '\U{FEFF}'
  }

  /** `\w` without the `u` flag: `[A-Za-z0-9_]`. */
  predicate IsWordChar(c: char) {
    ('A' <= c <= 'Z') || ('a' <= c <= 'z') || ('0' <= c <= '9') || c == '_'
  }

  predicate AllWhitespace(s: string) {
    forall i :: 0 <= i < |s| ==> IsJsWhitespace(s[i])
  }

  /** Length of the longest all-white-space prefix of `s`. */
  function LeadingWhitespace(s: string): (n: nat)
    ensures n <= |s|
    ensures AllWhitespace(s[..n])
    ensures n < |s| ==> !IsJsWhitespace(s[n])
  {
    if s != [] && IsJsWhitespace(s[0]) then 1 + LeadingWhitespace(s[1..]) else 0
  }

  /** Length of the longest all-white-space suffix of `s`. */
  function TrailingWhitespace(s: string): (n: nat)
    ensures n <= |s|
    ensures AllWhitespace(s[|s| - n..])
    ensures n < |s| ==> !IsJsWhitespace(s[|s| - n - 1])
  {
    if s != [] && IsJsWhitespace(s[|s| - 1]) then 1 + TrailingWhitespace(s[..|s| - 1]) else 0
  }

  lemma {:induction false} LeadingWhitespaceAppend(w: string, t: string)
    requires AllWhitespace(w)
    ensures LeadingWhitespace(w + t) == |w| + LeadingWhitespace(t)
  {
    if w != [] {
      assert (w + t)[1..] == w[1..] + t;
      LeadingWhitespaceAppend(w[1..], t);
    } else {
      assert w + t == t;
    }
  }

  lemma {:induction false} TrailingWhitespaceAppend(t: string, w: string)
    requires AllWhitespace(w)
    ensures TrailingWhitespace(t + w) == TrailingWhitespace(t) + |w|
  {
    if w != [] {
      assert (t + w)[..|t + w| - 1] == t + w[..|w| - 1];
      TrailingWhitespaceAppend(t, w[..|w| - 1]);
    } else {
      assert t + w == t;
    }
  }

  // ---------------------------------------------------------------------------
  // `String.prototype.trim`

  function TrimStart(s: string): string {
    s[LeadingWhitespace(s)..]
  }

  function TrimEnd(s: string): string {
    s[..|s| - TrailingWhitespace(s)]
  }

  /** Neither end is white space. */
  predicate IsTrimmed(s: string) {
    s == "" || (!IsJsWhitespace(s[0]) && !IsJsWhitespace(s[|s| - 1]))
  }

  /** `s.trim()` */
  function Trim(s: string): (r: string)
    ensures IsTrimmed(r)
    ensures |r| <= |s|
  {
    var t := TrimStart(s);
    var r := TrimEnd(t);
    assert r != "" ==> r[0] == t[0] && r[|r| - 1] == t[|t| - TrailingWhitespace(t) - 1];
    r
  }

  /** What `trim` removes is white space at the two ends. */
  lemma {:induction false} TrimSplits(s: string)
    ensures exists pre, post :: AllWhitespace(pre) && AllWhitespace(post) && s == pre + Trim(s) + post
  {
    var i := LeadingWhitespace(s);
    var t := s[i..];
    var j := TrailingWhitespace(t);
    var pre, post := s[..i], t[|t| - j..];
    assert AllWhitespace(pre) && AllWhitespace(post);
    Concat3(s, i, |t| - j);
    assert s == pre + Trim(s) + post;
  }

  lemma {:induction false} Concat3(s: string, i: nat, k: nat)
    requires i <= |s| && k <= |s| - i
    ensures s == s[..i] + s[i..][..k] + s[i..][k..]
  {
    assert s == s[..i] + s[i..];
    assert s[i..] == s[i..][..k] + s[i..][k..];
  }

  /** ... and nothing else: the trimmed core between two white-space stretches is what remains. */
  lemma {:induction false} TrimOf(pre: string, mid: string, post: string)
    requires AllWhitespace(pre) && AllWhitespace(post) && IsTrimmed(mid)
    ensures Trim(pre + mid + post) == mid
  {
    var s := pre + mid + post;
    assert s == pre + (mid + post);
    if mid == "" {
      assert mid + post == post;
      LeadingWhitespaceAppend(pre, post);
      LeadingWhitespaceAppend(post, "");
      assert post + "" == post;
    } else {
      TrimStartOf(pre, mid + post);
      TrimEndOf(mid, post);
    }
  }

  /** White space in front of a text that starts with something else is all `TrimStart`
      removes. */
  lemma {:induction false} TrimStartOf(pre: string, rest: string)
    requires AllWhitespace(pre) && rest != "" && !IsJsWhitespace(rest[0])
    ensures TrimStart(pre + rest) == rest
  {
    LeadingWhitespaceAppend(pre, rest);
    assert LeadingWhitespace(rest) == 0;
    assert (pre + rest)[|pre|..] == rest;
  }

  /** White space behind a text that ends with something else is all `TrimEnd` removes. */
  lemma {:induction false} TrimEndOf(mid: string, post: string)
    requires AllWhitespace(post) && mid != "" && !IsJsWhitespace(mid[|mid| - 1])
    ensures TrimEnd(mid + post) == mid
  {
    TrailingWhitespaceAppend(mid, post);
    assert TrailingWhitespace(mid) == 0;
    assert (mid + post)[..|mid|] == mid;
  }

  // ---------------------------------------------------------------------------
  // The insertion-ordered Set: a `Set` iterates (and `Array.from` lists) its members in the
  // order in which they were first added.

  predicate NoDuplicates<T(==)>(s: seq<T>) {
    forall i, j :: 0 <= i < j < |s| ==> s[i] != s[j]
  }

  /** `set.add(x)`: a member already present keeps its place; a new one goes last. */
  function SetAdd<T(==,!new)>(s: seq<T>, x: T): (r: seq<T>)
    ensures forall y :: y in r <==> y in s || y == x
    ensures x in s ==> r == s
    ensures x !in s ==> r == s + [x]
    ensures NoDuplicates(s) ==> NoDuplicates(r)
  {
    if x in s then s else s + [x]
  }

  /** `set.delete(x)`: the others keep their order. */
  function SetDelete<T(==,!new)>(s: seq<T>, x: T): (r: seq<T>)
    ensures forall y :: y in r <==> y in s && y != x
    ensures |r| <= |s|
    ensures NoDuplicates(s) ==> NoDuplicates(r)
    ensures x !in s ==> r == s
  {
    if s == [] then []
    else if s[0] == x then SetDelete(s[1..], x)
    else
      var rest := SetDelete(s[1..], x);
      assert NoDuplicates(s) ==> s[0] !in s[1..] && NoDuplicates(s[1..]);
      [s[0]] + rest
  }

  /** `new Set(iterable)`: the iterable's elements added one after the other. */
  function SetFrom<T(==,!new)>(s: seq<T>): (r: seq<T>)
    ensures NoDuplicates(r)
    ensures forall y :: y in r <==> y in s
    decreases |s|
  {
    if s == [] then [] else SetAdd(SetFrom(s[..|s| - 1]), s[|s| - 1])
  }

  /** A duplicate-free sequence becomes a Set with the same iteration order. */
  lemma {:induction false} SetFromDistinct<T(!new)>(s: seq<T>)
    requires NoDuplicates(s)
    ensures SetFrom(s) == s
  {
    if s != [] {
      var init, last := s[..|s| - 1], s[|s| - 1];
      assert NoDuplicates(init) by {
        forall i, j | 0 <= i < j < |init| ensures init[i] != init[j] {
          assert init[i] == s[i] && init[j] == s[j];
        }
      }
      SetFromDistinct(init);
      assert last !in init by {
        forall i | 0 <= i < |init| ensures init[i] != last {
          assert init[i] == s[i];
        }
      }
      assert SetFrom(s) == SetAdd(init, last);
      assert init + [last] == s;
    }
  }

  lemma {:induction false} SetDeleteAppend<T(!new)>(a: seq<T>, b: seq<T>, x: T)
    ensures SetDelete(a + b, x) == SetDelete(a, x) + SetDelete(b, x)
  {
    if a == [] {
      assert a + b == b;
    } else {
      assert (a + b)[0] == a[0];
      assert (a + b)[1..] == a[1..] + b;
      SetDeleteAppend(a[1..], b, x);
    }
  }

  /** Deleting a member of a duplicate-free list cuts out its one occurrence and leaves the
      others in their order. */
  lemma {:induction false} SetDeleteAt<T(!new)>(s: seq<T>, i: nat)
    requires NoDuplicates(s) && i < |s|
    ensures SetDelete(s, s[i]) == s[..i] + s[i + 1..]
  {
    var x := s[i];
    assert s == s[..i] + ([x] + s[i + 1..]);
    SetDeleteAppend(s[..i], [x] + s[i + 1..], x);
    SetDeleteAppend([x], s[i + 1..], x);
    assert x !in s[..i] by {
      forall j | 0 <= j < i ensures s[..i][j] != x {
        assert s[..i][j] == s[j];
      }
    }
    var after := s[i + 1..];
    assert x !in after by {
      forall j | 0 <= j < |after| ensures after[j] != x {
        assert after[j] == s[i + 1 + j];
      }
    }
    assert SetDelete([x], x) == [];
  }

  /** A JavaScript `Set` object, updated in place by `add` and `delete`. */
  class JsSet<T(==,!new)> {
    var elems: seq<T>

    ghost predicate Valid()
      reads this
    {
      NoDuplicates(elems)
    }

    /** `new Set()` */
    constructor Empty()
      ensures Valid() && elems == []
    {
      elems := [];
    }

    /** `new Set(init)` */
    constructor FromSeq(init: seq<T>)
      ensures Valid() && elems == SetFrom(init)
    {
      elems := [];
      new;
      var i := 0;
      while i < |init|
        invariant 0 <= i <= |init|
        invariant elems == SetFrom(init[..i])
      {
        assert init[..i + 1][..i] == init[..i];
        Add(init[i]);
        i := i + 1;
      }
      assert init[..|init|] == init;
    }

    /** `set.has(x)` */
    predicate Has(x: T)
      reads this
    {
      x in elems
    }

    /** `set.add(x)` */
    method Add(x: T)
      requires Valid()
      modifies this
      ensures Valid() && elems == SetAdd(old(elems), x)
    {
      if x !in elems {
        elems := elems + [x];
      }
    }

    /** `set.delete(x)` */
    method Delete(x: T)
      requires Valid()
      modifies this
      ensures Valid() && elems == SetDelete(old(elems), x)
    {
      elems := SetDelete(elems, x);
    }
  }
}

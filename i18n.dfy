/**
 The language state and the translation lookup: the current language, read from storage when
 the module loads and changed by `setLang`; the listeners told of every change; `t`, which looks
 a key up in the current dictionary, then in the `en-US` one, and falls back to the key itself;
 and `interpolate`, which fills the `{{ name }}` placeholders of the text found.
 */
module I18n {
  import opened JsRuntime

  const STORAGE_KEY: string := "cpb.lang"
  const DEFAULT_LANG: string := "pt-BR"
  const FALLBACK_LANG: string := "en-US"

  /** One dictionary: key to text; a key that is not there reads as `undefined`. */
  type Dict = map<string, string>

  /** `DICTS`: language to dictionary. */
  type Dicts = map<string, Dict>

  /** The initial `currentLang`: the stored item unless it is absent or empty. It is not
      checked against the dictionaries. */
  function InitialLang(storage: map<string, string>): (lang: string)
    ensures lang != ""
    ensures STORAGE_KEY in storage && storage[STORAGE_KEY] != "" ==> lang == storage[STORAGE_KEY]
    ensures !(STORAGE_KEY in storage && storage[STORAGE_KEY] != "") ==> lang == DEFAULT_LANG
  {
    if STORAGE_KEY in storage && storage[STORAGE_KEY] != "" then storage[STORAGE_KEY] else DEFAULT_LANG
  }

  // ---------------------------------------------------------------------------
  // `t`

  /** `DICTS[lang] || {}`: a dictionary is an object, so it is truthy even when empty. */
  function DictOf(dicts: Dicts, lang: string): Dict {
    if lang in dicts then dicts[lang] else map[]
  }

  /** `dict[key] ?? fallback[key] ?? key` */
  function RawText(dicts: Dicts, lang: string, key: string): (r: string)
    ensures lang in dicts && key in dicts[lang] ==> r == dicts[lang][key]
    ensures (lang !in dicts || key !in dicts[lang]) && FALLBACK_LANG in dicts && key in dicts[FALLBACK_LANG]
      ==> r == dicts[FALLBACK_LANG][key]
    ensures (lang !in dicts || key !in dicts[lang]) && (FALLBACK_LANG !in dicts || key !in dicts[FALLBACK_LANG])
      ==> r == key
  {
    var dict, fallback := DictOf(dicts, lang), DictOf(dicts, FALLBACK_LANG);
    if key in dict then dict[key] else if key in fallback then fallback[key] else key
  }

  /** `t(key, vars)` while `lang` is the current language; `None` stands for a falsy `vars`. */
  function Translate(dicts: Dicts, lang: string, key: string, vars: Option<map<string, TextValue>>): (r: string)
    ensures vars.None? ==> r == RawText(dicts, lang, key)
    ensures NoOpen(RawText(dicts, lang, key)) ==> r == RawText(dicts, lang, key)
  {
    Interpolate(RawText(dicts, lang, key), vars)
  }

  /** `??` and not `||`: an empty entry is the translation, and the fallback is not asked. */
  lemma {:induction false} EmptyEntryIsKept(dicts: Dicts, lang: string, key: string, vars: Option<map<string, TextValue>>)
    requires lang in dicts && key in dicts[lang] && dicts[lang][key] == ""
    ensures Translate(dicts, lang, key, vars) == ""
  {
    if vars.Some? {
      assert Substitute("", vars.value) == "";
    }
  }

  /** A language without a dictionary reads exactly like `en-US`. */
  lemma {:induction false} UnknownLanguageReadsFallback(dicts: Dicts, lang: string, key: string)
    requires lang !in dicts
    ensures RawText(dicts, lang, key) == RawText(dicts, FALLBACK_LANG, key)
  {
  }

  /** A stored language that has no dictionary is still taken at load time, and `t` then
      reads the `en-US` texts. */
  lemma {:induction false} StoredUnknownLanguage(dicts: Dicts, key: string)
    requires "fr-FR" !in dicts
    ensures InitialLang(map[STORAGE_KEY := "fr-FR"]) == "fr-FR"
    ensures RawText(dicts, InitialLang(map[STORAGE_KEY := "fr-FR"]), key) == RawText(dicts, FALLBACK_LANG, key)
  {
    var lang := InitialLang(map[STORAGE_KEY := "fr-FR"]);
    assert lang == "fr-FR";
    UnknownLanguageReadsFallback(dicts, lang, key);
  }

  // ---------------------------------------------------------------------------
  // `interpolate`: the regular expression `/\{\{\s*(\w+)\s*\}\}/g`

  predicate AllWord(s: string) {
    forall i :: 0 <= i < |s| ==> IsWordChar(s[i])
  }

  /** A capture of `(\w+)`. */
  predicate IsName(name: string) {
    name != "" && AllWord(name)
  }

  /** A match: how many characters it covers and the captured name. */
  datatype Placeholder = Placeholder(len: nat, name: string)

  /** `\s*(\w+)\s*\}\}` at the front of `s`, which is what follows a `{{`, read one character at
      a time; `k` characters are matched already. `\s`, `\w` and `}` share no character, so
      this greedy reading finds the only match there is. Here: white space before the name. */
  function BeforeName(s: string, k: nat): (r: Option<Placeholder>)
    ensures r.Some? ==> k + 3 <= r.value.len <= k + |s|
    decreases |s|
  {
    if s == "" then None
    else if IsJsWhitespace(s[0]) then BeforeName(s[1..], k + 1)
    else if IsWordChar(s[0]) then InName(s[1..], k + 1, [s[0]])
    else None
  }

  /** Inside the name, `name` read so far. */
  function InName(s: string, k: nat, name: string): (r: Option<Placeholder>)
    ensures r.Some? ==> k + 2 <= r.value.len <= k + |s|
    decreases |s|
  {
    if s != "" && IsWordChar(s[0]) then InName(s[1..], k + 1, name + [s[0]]) else AfterName(s, k, name)
  }

  /** White space after the name, then `}}`. */
  function AfterName(s: string, k: nat, name: string): (r: Option<Placeholder>)
    ensures r.Some? ==> k + 2 <= r.value.len <= k + |s|
    decreases |s|
  {
    if s == "" then None
    else if IsJsWhitespace(s[0]) then AfterName(s[1..], k + 1, name)
    else if |s| >= 2 && s[0] == '}' && s[1] == '}' then Some(Placeholder(k + 2, name))
    else None
  }

  lemma {:induction false} AfterNameFinds(post: string, rest: string, k: nat, name: string)
    requires AllWhitespace(post)
    ensures AfterName(post + ("}}" + rest), k, name) == Some(Placeholder(k + |post| + 2, name))
  {
    var s := post + ("}}" + rest);
    if post == "" {
      assert s == "}}" + rest;
    } else {
      assert s[0] == post[0] && s[1..] == post[1..] + ("}}" + rest);
      AfterNameFinds(post[1..], rest, k + 1, name);
    }
  }

  lemma {:induction false} InNameFinds(w: string, post: string, rest: string, k: nat, name: string)
    requires AllWord(w) && AllWhitespace(post)
    ensures InName(w + (post + ("}}" + rest)), k, name) == Some(Placeholder(k + |w| + |post| + 2, name + w))
  {
    var t := post + ("}}" + rest);
    var s := w + t;
    if w == "" {
      assert s == t;
      assert t[0] == (if post == "" then '}' else post[0]);
      AfterNameFinds(post, rest, k, name);
      assert name + w == name;
    } else {
      assert s[0] == w[0] && s[1..] == w[1..] + t;
      InNameFinds(w[1..], post, rest, k + 1, name + [w[0]]);
      assert name + [w[0]] + w[1..] == name + w;
    }
  }

  lemma {:induction false} NameStartFinds(name: string, post: string, rest: string, k: nat)
    requires IsName(name) && AllWhitespace(post)
    ensures BeforeName(name + (post + ("}}" + rest)), k) == Some(Placeholder(k + |name| + |post| + 2, name))
  {
    var t := post + ("}}" + rest);
    var s := name + t;
    assert s[0] == name[0] && s[1..] == name[1..] + t;
    InNameFinds(name[1..], post, rest, k + 1, [name[0]]);
    assert [name[0]] + name[1..] == name;
  }

  lemma {:induction false} BeforeNameFinds(pre: string, name: string, post: string, rest: string, k: nat)
    requires AllWhitespace(pre) && IsName(name) && AllWhitespace(post)
    ensures BeforeName(pre + (name + (post + ("}}" + rest))), k) == Some(Placeholder(k + |pre| + |name| + |post| + 2, name))
  {
    var t := name + (post + ("}}" + rest));
    if pre == "" {
      assert pre + t == t;
      NameStartFinds(name, post, rest, k);
    } else {
      var s := pre + t;
      assert s[0] == pre[0] && s[1..] == pre[1..] + t;
      BeforeNameFinds(pre[1..], name, post, rest, k + 1);
    }
  }

  lemma {:induction false} AfterNameSound(s: string, k: nat, name: string) returns (post: string)
    requires AfterName(s, k, name).Some?
    ensures AllWhitespace(post) && AfterName(s, k, name) == Some(Placeholder(k + |post| + 2, name))
    ensures |post| + 2 <= |s| && s[..|post| + 2] == post + "}}"
    decreases |s|
  {
    if IsJsWhitespace(s[0]) {
      var p := AfterNameSound(s[1..], k + 1, name);
      post := [s[0]] + p;
      assert s[..|post| + 2] == [s[0]] + s[1..][..|p| + 2];
    } else {
      post := "";
      assert s[..2] == "}}";
    }
  }

  lemma {:induction false} InNameSound(s: string, k: nat, name: string) returns (w: string, post: string)
    requires InName(s, k, name).Some?
    ensures AllWord(w) && AllWhitespace(post)
    ensures InName(s, k, name) == Some(Placeholder(k + |w| + |post| + 2, name + w))
    ensures |w| + |post| + 2 <= |s| && s[..|w| + |post| + 2] == w + (post + "}}")
    decreases |s|
  {
    if s != "" && IsWordChar(s[0]) {
      var w1, p := InNameSound(s[1..], k + 1, name + [s[0]]);
      w, post := [s[0]] + w1, p;
      assert name + [s[0]] + w1 == name + w;
      assert s[..|w| + |post| + 2] == [s[0]] + s[1..][..|w1| + |p| + 2];
    } else {
      w := "";
      post := AfterNameSound(s, k, name);
      assert name + w == name;
    }
  }

  /** The matched text of a match that starts at the name. */
  lemma {:induction false} NameStartSound(s: string, k: nat) returns (name: string, post: string)
    requires s != "" && IsWordChar(s[0]) && BeforeName(s, k).Some?
    ensures IsName(name) && AllWhitespace(post)
    ensures BeforeName(s, k) == Some(Placeholder(k + |name| + |post| + 2, name))
    ensures |name| + |post| + 2 <= |s| && s[..|name| + |post| + 2] == name + (post + "}}")
  {
    var w;
    w, post := InNameSound(s[1..], k + 1, [s[0]]);
    name := [s[0]] + w;
    assert s[..|name| + |post| + 2] == [s[0]] + s[1..][..|w| + |post| + 2];
  }

  lemma {:induction false} BeforeNameSound(s: string, k: nat) returns (pre: string, name: string, post: string)
    requires BeforeName(s, k).Some?
    ensures AllWhitespace(pre) && IsName(name) && AllWhitespace(post)
    ensures BeforeName(s, k) == Some(Placeholder(k + |pre| + |name| + |post| + 2, name))
    ensures |pre| + |name| + |post| + 2 <= |s| && s[..|pre| + |name| + |post| + 2] == pre + (name + (post + "}}"))
    decreases |s|
  {
    if IsJsWhitespace(s[0]) {
      var p;
      p, name, post := BeforeNameSound(s[1..], k + 1);
      pre := [s[0]] + p;
      assert s[..|pre| + |name| + |post| + 2] == [s[0]] + s[1..][..|p| + |name| + |post| + 2];
    } else {
      pre := "";
      name, post := NameStartSound(s, k);
    }
  }

  /** The match of the whole expression at the front of `s`, if there is one. */
  function PlaceholderPrefix(s: string): (r: Option<Placeholder>)
    ensures r.Some? ==> 5 <= r.value.len <= |s|
  {
    if |s| >= 2 && s[0] == '{' && s[1] == '{' then BeforeName(s[2..], 2) else None
  }

  /** `{{`, a name with the given white space around it, `}}`. */
  function HoleText(pre: string, name: string, post: string): string {
    "{{" + (pre + (name + (post + "}}")))
  }

  /** What is found is `{{`, white space, a name, white space and `}}`, and the name is the
      one captured. */
  lemma {:induction false} PlaceholderPrefixSound(s: string) returns (pre: string, post: string)
    requires PlaceholderPrefix(s).Some?
    ensures AllWhitespace(pre) && IsName(PlaceholderPrefix(s).value.name) && AllWhitespace(post)
    ensures s[..PlaceholderPrefix(s).value.len] == HoleText(pre, PlaceholderPrefix(s).value.name, post)
  {
    var u := s[2..];
    var name;
    pre, name, post := BeforeNameSound(u, 2);
    var n := |pre| + |name| + |post| + 2;
    assert s[..n + 2] == s[..2] + u[..n];
  }

  /** A placeholder at the front is found, whole, whatever follows it. */
  lemma {:induction false} PlaceholderPrefixFinds(pre: string, name: string, post: string, rest: string)
    requires AllWhitespace(pre) && IsName(name) && AllWhitespace(post)
    ensures PlaceholderPrefix(HoleText(pre, name, post) + rest) == Some(Placeholder(|HoleText(pre, name, post)|, name))
  {
    var u := pre + (name + (post + ("}}" + rest)));
    var s := HoleText(pre, name, post) + rest;
    assert s == "{{" + u;
    assert s[2..] == u;
    BeforeNameFinds(pre, name, post, rest, 2);
  }

  /** `vars[k] ?? ''`, turned into text by `replace`. */
  function VarText(vars: map<string, TextValue>, name: string): (r: string)
    ensures name !in vars ==> r == ""
    ensures name in vars && IsNullish(vars[name]) ==> r == ""
    ensures name in vars && vars[name].Str? ==> r == vars[name].s
    ensures name in vars && vars[name].Bool? ==> r == (if vars[name].b then "true" else "false")
  {
    if name in vars && !IsNullish(vars[name]) then ToJsString(vars[name]) else ""
  }

  /** `str.replace(/\{\{\s*(\w+)\s*\}\}/g, (_, k) => (vars[k] ?? ''))`: scanning from the left,
      a match is replaced and the scan goes on after it; anywhere else one character is
      copied. */
  function Substitute(s: string, vars: map<string, TextValue>): (r: string)
    ensures s != "" && s[0] != '{' ==> r != "" && r[0] == s[0]
    decreases |s|
  {
    if s == "" then ""
    else
      match PlaceholderPrefix(s)
      case Some(m) => VarText(vars, m.name) + Substitute(s[m.len..], vars)
      case None => [s[0]] + Substitute(s[1..], vars)
  }

  /** `interpolate(str, vars)`; `None` stands for a falsy `vars`, which returns `str` as it
      is. */
  function Interpolate(str: string, vars: Option<map<string, TextValue>>): (r: string)
    ensures vars.None? ==> r == str
    ensures NoOpen(str) ==> r == str
  {
    if vars.None? then str
    else if NoOpen(str) then
      NoPlaceholderUnchanged(str, vars.value);
      Substitute(str, vars.value)
    else Substitute(str, vars.value)
  }

  /** No `{{` occurs in `s`. */
  predicate NoOpen(s: string) {
    forall i :: 0 <= i < |s| - 1 ==> !(s[i] == '{' && s[i + 1] == '{')
  }

  lemma {:induction false} NoOpenTail(s: string)
    requires s != ""
    ensures NoOpen(s) ==> NoOpen(s[1..])
  {
    if NoOpen(s) {
      var tail := s[1..];
      forall i | 0 <= i < |tail| - 1 ensures !(tail[i] == '{' && tail[i + 1] == '{') {
        assert tail[i] == s[i + 1] && tail[i + 1] == s[i + 2];
      }
    }
  }

  /** Text in which no `{{` occurs comes out as it went in. */
  lemma {:induction false} NoPlaceholderUnchanged(s: string, vars: map<string, TextValue>)
    requires NoOpen(s)
    ensures Substitute(s, vars) == s
  {
    if s != "" {
      assert PlaceholderPrefix(s).None?;
      NoOpenTail(s);
      NoPlaceholderUnchanged(s[1..], vars);
      assert [s[0]] + s[1..] == s;
    }
  }

  /** No `{{` starts in `t`, nor can one start at its last character. */
  predicate Inert(t: string) {
    NoOpen(t) && (t != "" ==> t[|t| - 1] != '{')
  }

  /** No match starts at the front of inert text, whatever follows it. */
  lemma {:induction false} InertHead(t: string, rest: string)
    requires Inert(t) && t != ""
    ensures PlaceholderPrefix(t + rest).None?
  {
    var s := t + rest;
    assert s[0] == t[0];
    if t[0] == '{' {
      assert |t| >= 2 && t[1] != '{';
      assert s[1] == t[1];
    }
  }

  lemma {:induction false} InertTail(t: string)
    requires Inert(t) && t != ""
    ensures Inert(t[1..])
  {
    NoOpenTail(t);
  }

  /** The first character of inert text is copied. */
  lemma {:induction false} InertStep(t: string, rest: string, vars: map<string, TextValue>)
    requires Inert(t) && t != ""
    ensures Substitute(t + rest, vars) == [t[0]] + Substitute(t[1..] + rest, vars)
  {
    var s := t + rest;
    InertHead(t, rest);
    assert s[0] == t[0] && s[1..] == t[1..] + rest;
  }

  /** Inert text in front is copied, and the scan resumes right after it. */
  lemma {:induction false} InertPrefix(t: string, rest: string, vars: map<string, TextValue>)
    requires Inert(t)
    ensures Substitute(t + rest, vars) == t + Substitute(rest, vars)
  {
    if t == "" {
      assert t + rest == rest;
    } else {
      var r := Substitute(rest, vars);
      InertTail(t);
      calc {
        Substitute(t + rest, vars);
      == { InertStep(t, rest, vars); }
        [t[0]] + Substitute(t[1..] + rest, vars);
      == { InertPrefix(t[1..], rest, vars); }
        [t[0]] + (t[1..] + r);
      == { assert [t[0]] + t[1..] == t; }
        t + r;
      }
    }
  }

  // ---------------------------------------------------------------------------
  // Templates: text split into literal pieces and placeholders.

  datatype Piece = Text(text: string) | Hole(pre: string, name: string, post: string)

  predicate WellFormed(p: Piece) {
    match p
    case Text(t) => NoOpen(t)
    case Hole(pre, name, post) => AllWhitespace(pre) && IsName(name) && AllWhitespace(post)
  }

  /** Well-formed pieces, where a literal piece that ends in '{' is followed by a placeholder
      or by nothing: a literal piece after it could complete a `{{`. */
  predicate Template(ps: seq<Piece>) {
    forall i :: 0 <= i < |ps| ==>
      WellFormed(ps[i]) && (ps[i].Text? && !Inert(ps[i].text) && i + 1 < |ps| ==> ps[i + 1].Hole?)
  }

  lemma {:induction false} TemplateTail(ps: seq<Piece>)
    requires Template(ps) && ps != []
    ensures Template(ps[1..])
  {
    assert forall i :: 0 <= i < |ps| - 1 ==> ps[1..][i] == ps[i + 1];
  }

  /** Text without `{{` that ends in '{' is inert once that '{' is taken off. */
  lemma {:induction false} OpenEdge(t: string)
    requires NoOpen(t) && !Inert(t)
    ensures t != "" && t[|t| - 1] == '{' && Inert(t[..|t| - 1])
  {
    var u := t[..|t| - 1];
    assert forall i :: 0 <= i < |u| ==> u[i] == t[i];
  }

  /** A '{' before a placeholder or at the end cannot start a match, so it is copied. */
  lemma {:induction false} LoneBrace(rest: string, vars: map<string, TextValue>)
    requires rest == "" || (|rest| >= 2 && rest[0] == '{' && rest[1] == '{')
    ensures Substitute("{" + rest, vars) == "{" + Substitute(rest, vars)
  {
    var s := "{" + rest;
    if rest != "" {
      assert s[2..][0] == '{';
    }
    assert PlaceholderPrefix(s).None?;
    assert s[1..] == rest;
  }

  function PieceText(p: Piece): string {
    match p
    case Text(t) => t
    case Hole(pre, name, post) => HoleText(pre, name, post)
  }

  /** The template as written. */
  function Render(ps: seq<Piece>): string {
    if ps == [] then "" else PieceText(ps[0]) + Render(ps[1..])
  }

  /** The template with each placeholder's value put in its place. */
  function Fill(ps: seq<Piece>, vars: map<string, TextValue>): string {
    if ps == [] then ""
    else (if ps[0].Text? then ps[0].text else VarText(vars, ps[0].name)) + Fill(ps[1..], vars)
  }

  /** A template that starts with a placeholder starts with `{{`. */
  lemma {:induction false} HoleFront(ps: seq<Piece>)
    requires ps != [] && ps[0].Hole?
    ensures |Render(ps)| >= 2 && Render(ps)[0] == '{' && Render(ps)[1] == '{'
  {
    var h := PieceText(ps[0]);
    assert h[0] == '{' && h[1] == '{';
    assert Render(ps) == h + Render(ps[1..]);
  }

  /** Text without `{{` that ends in '{', before a placeholder or at the end, is copied. */
  lemma {:induction false} EdgeText(t: string, rest: string, vars: map<string, TextValue>)
    requires NoOpen(t) && !Inert(t)
    requires rest == "" || (|rest| >= 2 && rest[0] == '{' && rest[1] == '{')
    ensures Substitute(t + rest, vars) == t + Substitute(rest, vars)
  {
    OpenEdge(t);
    var u := t[..|t| - 1];
    var r := Substitute(rest, vars);
    assert t == u + "{";
    calc {
      Substitute(t + rest, vars);
    == { assert t + rest == u + ("{" + rest); }
      Substitute(u + ("{" + rest), vars);
    == { InertPrefix(u, "{" + rest, vars); }
      u + Substitute("{" + rest, vars);
    == { LoneBrace(rest, vars); }
      u + ("{" + r);
    == { assert u + ("{" + r) == (u + "{") + r; }
      t + r;
    }
  }

  /** Interpolation fills a template: the literal text is kept as it is, each placeholder
      becomes its value (or nothing), and a value is never scanned for placeholders itself. */
  lemma {:induction false} SubstituteFills(ps: seq<Piece>, vars: map<string, TextValue>)
    requires Template(ps)
    ensures Substitute(Render(ps), vars) == Fill(ps, vars)
  {
    if ps != [] {
      var rest := Render(ps[1..]);
      TemplateTail(ps);
      SubstituteFills(ps[1..], vars);
      match ps[0]
      case Text(t) =>
        if Inert(t) {
          InertPrefix(t, rest, vars);
        } else {
          if |ps| > 1 {
            HoleFront(ps[1..]);
          }
          EdgeText(t, rest, vars);
        }
      case Hole(pre, name, post) =>
        var h := HoleText(pre, name, post);
        PlaceholderPrefixFinds(pre, name, post, rest);
        assert (h + rest)[|h|..] == rest;
    }
  }

  /** A value that looks like a placeholder is inserted as it is. */
  lemma {:induction false} ValueNotRescanned()
    ensures var vars: map<string, TextValue> := map["k" := Str("{{k}}")];
      Interpolate("{{k}}", Some(vars)) == "{{k}}"
  {
    var vars: map<string, TextValue> := map["k" := Str("{{k}}")];
    var ps := [Hole("", "k", "")];
    assert IsName("k");
    assert Template(ps);
    assert Render(ps) == "{{k}}" by {
      assert HoleText("", "k", "") == "{{k}}";
    }
    SubstituteFills(ps, vars);
  }

  /** A third '{' in front of a placeholder is literal text: only the last two open the match. */
  lemma {:induction false} BraceBeforePlaceholder()
    ensures var vars: map<string, TextValue> := map["x" := Str("v")];
      Interpolate("{{{x}}", Some(vars)) == "{v"
  {
    var vars: map<string, TextValue> := map["x" := Str("v")];
    var ps := [Text("{"), Hole("", "x", "")];
    assert IsName("x") && NoOpen("{");
    assert Template(ps);
    assert Render(ps) == "{{{x}}" by {
      assert HoleText("", "x", "") == "{{x}}";
    }
    SubstituteFills(ps, vars);
  }

  /** Braces around no name do not match and are copied; the scan then finds the placeholder
      after them. */
  lemma {:induction false} EmptyBracesKept(vars: map<string, TextValue>)
    ensures Interpolate("{{}} {{n}}", Some(vars)) == "{{}} " + VarText(vars, "n")
  {
    var tail := "{{n}}";
    assert IsName("n");
    assert tail == HoleText("", "n", "") + "";
    PlaceholderPrefixFinds("", "n", "", "");
    assert tail[5..] == "";
    var v := Substitute(tail, vars);
    assert v == VarText(vars, "n");
    var s1 := [' '] + tail;
    var s2 := ['}'] + s1;
    var s3 := ['}'] + s2;
    var s4 := ['{'] + s3;
    var s5 := ['{'] + s4;
    CopiedChar(' ', tail, vars);
    CopiedChar('}', s1, vars);
    CopiedChar('}', s2, vars);
    assert s3[0] == '}';
    CopiedChar('{', s3, vars);
    assert s4[1] == '}';
    CopiedChar('{', s4, vars);
    assert Substitute(s5, vars) == "{{}} " + v;
    assert s5 == "{{}} {{n}}";
  }

  /** A character is copied when no match can start at it: it is not '{', or the next
      character is not '{', or the one after that is neither white space nor a word character. */
  lemma {:induction false} CopiedChar(c: char, rest: string, vars: map<string, TextValue>)
    requires c != '{' || rest == "" || rest[0] != '{'
      || (|rest| >= 2 && !IsJsWhitespace(rest[1]) && !IsWordChar(rest[1]))
    ensures Substitute([c] + rest, vars) == [c] + Substitute(rest, vars)
  {
    var s := [c] + rest;
    if c == '{' && rest != "" && rest[0] == '{' {
      assert s[2..][0] == rest[1];
    }
    assert PlaceholderPrefix(s).None?;
    assert s[1..] == rest;
  }

  /** White space inside the braces is allowed, and a missing value gives the empty text. */
  lemma {:induction false} SpacesAndMissingValue()
    ensures Interpolate("{{ n }}!", Some(map[])) == "!"
  {
    var ps := [Hole(" ", "n", " "), Text("!")];
    assert IsName("n") && AllWhitespace(" ") && Inert("!");
    assert Template(ps);
    assert Render(ps) == "{{ n }}!" by {
      assert HoleText(" ", "n", " ") == "{{ n }}";
    }
    SubstituteFills(ps, map[]);
  }

  // ---------------------------------------------------------------------------
  // The listeners and the language state.

  /** A `sub` closure registered by one `useI18n` call, known by its identity. */
  datatype Listener = Listener(id: nat)

  /** One call `fn(currentLang)` made by `notify`. */
  datatype Call = Call(listener: Listener, lang: string)

  /** The calls `listeners.forEach(fn => fn(lang))` makes, in iteration order. */
  function Calls(ls: seq<Listener>, lang: string): (r: seq<Call>)
    ensures |r| == |ls|
    ensures forall i :: 0 <= i < |ls| ==> r[i] == Call(ls[i], lang)
  {
    if ls == [] then [] else Calls(ls[..|ls| - 1], lang) + [Call(ls[|ls| - 1], lang)]
  }

  /** A listener is called exactly when it is registered. */
  lemma {:induction false} CalledIffListening(ls: seq<Listener>, lang: string, l: Listener)
    ensures Call(l, lang) in Calls(ls, lang) <==> l in ls
  {
    var r := Calls(ls, lang);
    if l in ls {
      var i :| 0 <= i < |ls| && ls[i] == l;
      assert r[i] == Call(l, lang);
    }
    if Call(l, lang) in r {
      var i :| 0 <= i < |r| && r[i] == Call(l, lang);
    }
  }

  /** Registering a listener twice keeps one entry, so it is called once per change. */
  lemma {:induction false} SubscribeTwiceCallsOnce(ls: seq<Listener>, l: Listener, lang: string)
    requires NoDuplicates(ls)
    ensures SetAdd(SetAdd(ls, l), l) == SetAdd(ls, l)
    ensures NoDuplicates(Calls(SetAdd(SetAdd(ls, l), l), lang))
  {
    var r := Calls(SetAdd(ls, l), lang);
    forall i, j | 0 <= i < j < |r| ensures r[i] != r[j] {
      assert r[i].listener == SetAdd(ls, l)[i] && r[j].listener == SetAdd(ls, l)[j];
    }
  }

  /** A removed listener is not called on later changes. */
  lemma {:induction false} UnsubscribedNotCalled(ls: seq<Listener>, l: Listener, lang: string)
    ensures Call(l, lang) !in Calls(SetDelete(ls, l), lang)
  {
    CalledIffListening(SetDelete(ls, l), lang, l);
  }

  /** The state `i18n.js` keeps at module level, with `localStorage` and
      `document.documentElement.lang` as plain fields and the listener calls recorded. */
  class LanguageState {
    const dicts: Dicts
    var currentLang: string
    var storage: map<string, string>
    var documentLang: string
    const listeners: JsSet<Listener>
    var calls: seq<Call>

    /** `document.documentElement.lang` shows the current language. */
    ghost predicate DocumentInSync()
      reads this
    {
      documentLang == currentLang
    }

    ghost predicate Valid()
      reads this, listeners
    {
      listeners.Valid() && DocumentInSync()
    }

    /** Module load: `currentLang` from storage, copied to the document. */
    constructor (dicts: Dicts, storage: map<string, string>)
      ensures Valid() && fresh(listeners)
      ensures this.dicts == dicts && this.storage == storage
      ensures currentLang == InitialLang(storage) && documentLang == currentLang
      ensures listeners.elems == [] && calls == []
    {
      var lang := InitialLang(storage);
      this.dicts := dicts;
      this.storage := storage;
      currentLang := lang;
      documentLang := lang;
      listeners := new JsSet<Listener>.Empty();
      calls := [];
    }

    /** `getLang()`: the current language, which is also the one the document shows. */
    function GetLang(): (lang: string)
      reads this
      ensures DocumentInSync() ==> lang == documentLang
    {
      currentLang
    }

    /** `t(key, vars)`: the lookup in the current language, filled in. */
    function T(key: string, vars: Option<map<string, TextValue>>): (r: string)
      reads this
      ensures r == Translate(dicts, GetLang(), key, vars)
      ensures vars.None? || NoOpen(RawText(dicts, GetLang(), key)) ==> r == RawText(dicts, GetLang(), key)
    {
      Translate(dicts, currentLang, key, vars)
    }

    /** `notify()`: every listener, in the Set's order, called with the current language. */
    method Notify()
      modifies this
      ensures calls == old(calls) + Calls(listeners.elems, currentLang)
      ensures currentLang == old(currentLang) && storage == old(storage) && documentLang == old(documentLang)
    {
      var ls := listeners.elems;
      var i := 0;
      while i < |ls|
        invariant 0 <= i <= |ls|
        invariant calls == old(calls) + Calls(ls[..i], currentLang)
        invariant currentLang == old(currentLang) && storage == old(storage) && documentLang == old(documentLang)
      {
        assert ls[..i + 1][..i] == ls[..i];
        calls := calls + [Call(ls[i], currentLang)];
        i := i + 1;
      }
      assert ls[..|ls|] == ls;
    }

    /** `setLang(lang)`: a language without a dictionary changes nothing at all. */
    method SetLang(lang: string)
      requires Valid()
      modifies this
      ensures Valid()
      ensures lang !in dicts ==>
        && currentLang == old(currentLang) && storage == old(storage)
        && documentLang == old(documentLang) && calls == old(calls)
      ensures lang in dicts ==>
        && GetLang() == lang && storage == old(storage)[STORAGE_KEY := lang] && documentLang == lang
        && calls == old(calls) + Calls(listeners.elems, lang)
    {
      if lang !in dicts {
        return;
      }
      currentLang := lang;
      storage := storage[STORAGE_KEY := lang];
      documentLang := lang;
      Notify();
    }

    /** `listeners.add(sub)` */
    method Subscribe(l: Listener)
      requires Valid()
      modifies listeners
      ensures Valid() && listeners.elems == SetAdd(old(listeners.elems), l)
    {
      listeners.Add(l);
    }

    /** `listeners.delete(sub)`, the effect's clean-up. */
    method Unsubscribe(l: Listener)
      requires Valid()
      modifies listeners
      ensures Valid() && listeners.elems == SetDelete(old(listeners.elems), l)
    {
      listeners.Delete(l);
    }
  }
}

/**
 The product list derived from the text area: `productsText.split('\n')`, every line trimmed
 with `String.prototype.trim`, empty lines dropped. Order and duplicates are kept.
 */
module ProductList {
  import opened JsRuntime

  /** `s.split('\n')`: always at least one line, and no line holds a '\n'. */
  function SplitLines(s: string): (r: seq<string>)
    ensures |r| >= 1
    ensures forall i :: 0 <= i < |r| ==> '\n' !in r[i]
  {
    if s == "" then [""]
    else if s[0] == '\n' then [""] + SplitLines(s[1..])
    else
      var rest := SplitLines(s[1..]);
      [[s[0]] + rest[0]] + rest[1..]
  }

  /** `lines.join('\n')` */
  function JoinLines(lines: seq<string>): string
    requires |lines| >= 1
  {
    if |lines| == 1 then lines[0] else lines[0] + "\n" + JoinLines(lines[1..])
  }

  /** Joining the lines of a text gives the text back. */
  lemma {:induction false} JoinSplit(s: string)
    ensures JoinLines(SplitLines(s)) == s
  {
    if s != "" {
      var rest := SplitLines(s[1..]);
      JoinSplit(s[1..]);
      if s[0] == '\n' {
        assert ([""] + rest)[1..] == rest;
      } else {
        var r := [[s[0]] + rest[0]] + rest[1..];
        assert r[0] == [s[0]] + rest[0];
        if |rest| > 1 {
          assert r[1..] == rest[1..];
        }
      }
    }
  }

  /** A line without '\n' followed by a '\n' is the first line. */
  lemma {:induction false} SplitAfterLine(line: string, rest: string)
    requires '\n' !in line
    ensures SplitLines(line + "\n" + rest) == [line] + SplitLines(rest)
  {
    if line == "" {
      assert line + "\n" + rest == "\n" + rest;
      assert ("\n" + rest)[1..] == rest;
    } else {
      var s := line + "\n" + rest;
      assert s[0] == line[0] && s[1..] == line[1..] + "\n" + rest;
      SplitAfterLine(line[1..], rest);
      assert [line[0]] + line[1..] == line;
    }
  }

  lemma {:induction false} SplitSingleLine(line: string)
    requires '\n' !in line
    ensures SplitLines(line) == [line]
  {
    if line != "" {
      SplitSingleLine(line[1..]);
      assert [line[0]] + line[1..] == line;
    }
  }

  /** Splitting the joined lines gives the lines back, when none of them holds a '\n'. */
  lemma {:induction false} SplitJoin(lines: seq<string>)
    requires |lines| >= 1
    requires forall i :: 0 <= i < |lines| ==> '\n' !in lines[i]
    ensures SplitLines(JoinLines(lines)) == lines
  {
    if |lines| == 1 {
      SplitSingleLine(lines[0]);
    } else {
      SplitJoin(lines[1..]);
      SplitAfterLine(lines[0], JoinLines(lines[1..]));
      assert [lines[0]] + lines[1..] == lines;
    }
  }

  /** A '\n' between two texts separates their lines: the last line of the first text and the
      first line of the second stay apart. */
  lemma {:induction false} SplitAppend(a: string, b: string)
    ensures SplitLines(a + "\n" + b) == SplitLines(a) + SplitLines(b)
  {
    var s := a + "\n" + b;
    if a == "" {
      assert s == "\n" + b && s[1..] == b;
    } else {
      assert s[0] == a[0] && s[1..] == a[1..] + "\n" + b;
      SplitAppend(a[1..], b);
      var left := SplitLines(a[1..]);
      var rest := left + SplitLines(b);
      if a[0] != '\n' {
        assert rest[0] == left[0] && rest[1..] == left[1..] + SplitLines(b);
      }
    }
  }

  // ---------------------------------------------------------------------------
  // The product list

  /** `.map(s => s.trim()).filter(Boolean)` */
  function NonEmptyTrimmed(lines: seq<string>): (r: seq<string>)
    ensures |r| <= |lines|
  {
    if lines == [] then []
    else
      var rest := NonEmptyTrimmed(lines[1..]);
      var t := Trim(lines[0]);
      if t == "" then rest else [t] + rest
  }

  /** What the filter keeps is trimmed and not empty. */
  lemma {:induction false} NonEmptyTrimmedClean(lines: seq<string>)
    ensures forall i :: 0 <= i < |NonEmptyTrimmed(lines)| ==> NonEmptyTrimmed(lines)[i] != "" && IsTrimmed(NonEmptyTrimmed(lines)[i])
  {
    if lines != [] {
      NonEmptyTrimmedClean(lines[1..]);
    }
  }

  /** `.map(s => s.trim())` alone. */
  function TrimAll(lines: seq<string>): (r: seq<string>)
    ensures |r| == |lines|
    ensures forall i :: 0 <= i < |lines| ==> r[i] == Trim(lines[i])
  {
    if lines == [] then [] else [Trim(lines[0])] + TrimAll(lines[1..])
  }

  lemma {:induction false} NonEmptyTrimmedMembers(lines: seq<string>, x: string)
    ensures x in NonEmptyTrimmed(lines) <==> x != "" && x in TrimAll(lines)
  {
    if lines != [] {
      NonEmptyTrimmedMembers(lines[1..], x);
      assert TrimAll(lines) == [Trim(lines[0])] + TrimAll(lines[1..]);
    }
  }

  lemma {:induction false} NonEmptyTrimmedAppend(a: seq<string>, b: seq<string>)
    ensures NonEmptyTrimmed(a + b) == NonEmptyTrimmed(a) + NonEmptyTrimmed(b)
  {
    if a == [] {
      assert a + b == b;
    } else {
      assert (a + b)[0] == a[0] && (a + b)[1..] == a[1..] + b;
      NonEmptyTrimmedAppend(a[1..], b);
    }
  }

  /** Names already trimmed and non-empty are kept as they are, one by one. */
  lemma {:induction false} NonEmptyTrimmedKeeps(names: seq<string>)
    requires forall i :: 0 <= i < |names| ==> names[i] != "" && IsTrimmed(names[i])
    ensures NonEmptyTrimmed(names) == names
  {
    if names != [] {
      NonEmptyTrimmedKeeps(names[1..]);
      TrimOf("", names[0], "");
      assert "" + names[0] + "" == names[0];
      assert [names[0]] + names[1..] == names;
    }
  }

  /** `products` */
  function Products(productsText: string): (r: seq<string>)
    ensures forall i :: 0 <= i < |r| ==> r[i] != "" && IsTrimmed(r[i])
  {
    NonEmptyTrimmedClean(SplitLines(productsText));
    NonEmptyTrimmed(SplitLines(productsText))
  }

  /** A name is a product exactly when it is a line of the text once trimmed, and not empty. */
  lemma {:induction false} ProductMembers(text: string, x: string)
    ensures x in Products(text) <==> x != "" && x in TrimAll(SplitLines(text))
  {
    NonEmptyTrimmedMembers(SplitLines(text), x);
  }

  /** Writing the names one per line and reading them back gives the same names, in the same
      order and with their duplicates. */
  lemma {:induction false} ProductsOfJoin(names: seq<string>)
    requires |names| >= 1
    requires forall i :: 0 <= i < |names| ==> names[i] != "" && IsTrimmed(names[i]) && '\n' !in names[i]
    ensures Products(JoinLines(names)) == names
  {
    SplitJoin(names);
    NonEmptyTrimmedKeeps(names);
  }

  /** The products of two texts written one below the other are the products of the first
      followed by those of the second. */
  lemma {:induction false} ProductsAppendLine(a: string, b: string)
    ensures Products(a + "\n" + b) == Products(a) + Products(b)
  {
    SplitAppend(a, b);
    NonEmptyTrimmedAppend(SplitLines(a), SplitLines(b));
  }

  /** A text of white space and line breaks lists no product. */
  lemma {:induction false} BlankTextHasNoProducts(text: string)
    requires AllWhitespace(text)
    ensures Products(text) == []
  {
    BlankLines(text);
    BlankLinesDropped(SplitLines(text));
  }

  /** ... and only such a text: a text lists no product exactly when it is all white space. */
  lemma {:induction false} NoProductsIffBlank(text: string)
    ensures Products(text) == [] <==> AllWhitespace(text)
  {
    if AllWhitespace(text) {
      BlankTextHasNoProducts(text);
    } else if Products(text) == [] {
      var lines := SplitLines(text);
      forall i | 0 <= i < |lines| ensures AllWhitespace(lines[i]) {
        DroppedLineIsBlank(lines, i);
        TrimSplits(lines[i]);
      }
      JoinSplit(text);
      JoinBlank(lines);
    }
  }

  /** A line the filter drops trims to the empty string. */
  lemma {:induction false} DroppedLineIsBlank(lines: seq<string>, i: nat)
    requires NonEmptyTrimmed(lines) == [] && i < |lines|
    ensures Trim(lines[i]) == ""
  {
    if i > 0 {
      DroppedLineIsBlank(lines[1..], i - 1);
    }
  }

  /** Joining white-space lines with '\n' gives white space. */
  lemma {:induction false} JoinBlank(lines: seq<string>)
    requires |lines| >= 1
    requires forall i :: 0 <= i < |lines| ==> AllWhitespace(lines[i])
    ensures AllWhitespace(JoinLines(lines))
  {
    if |lines| > 1 {
      JoinBlank(lines[1..]);
      var rest := JoinLines(lines[1..]);
      assert AllWhitespace(lines[0]);
      assert IsJsWhitespace('\n');
      var s := lines[0] + "\n" + rest;
      forall k | 0 <= k < |s| ensures IsJsWhitespace(s[k]) {
        if k < |lines[0]| {
          assert s[k] == lines[0][k];
        } else if k > |lines[0]| {
          assert s[k] == rest[k - |lines[0]| - 1];
        }
      }
    }
  }

  lemma {:induction false} BlankLines(text: string)
    requires AllWhitespace(text)
    ensures forall i :: 0 <= i < |SplitLines(text)| ==> AllWhitespace(SplitLines(text)[i])
  {
    var lines := SplitLines(text);
    if text != "" {
      BlankLines(text[1..]);
      var rest := SplitLines(text[1..]);
      if text[0] != '\n' {
        assert lines[0] == [text[0]] + rest[0];
        forall i | 0 <= i < |lines| ensures AllWhitespace(lines[i]) {
          if i > 0 {
            assert lines[i] == rest[i];
          }
        }
      } else {
        assert forall i :: 0 < i < |lines| ==> lines[i] == rest[i - 1];
      }
    }
  }

  lemma {:induction false} BlankLinesDropped(lines: seq<string>)
    requires forall i :: 0 <= i < |lines| ==> AllWhitespace(lines[i])
    ensures NonEmptyTrimmed(lines) == []
  {
    if lines != [] {
      BlankLinesDropped(lines[1..]);
      TrimOf(lines[0], "", "");
      assert lines[0] + "" + "" == lines[0];
    }
  }
}

/**
 * The CSS text helpers of src/lib/reactUtil.tsx: `camelToDash`, which turns a React style
 * field name into a CSS property name with two regular-expression replacements;
 * `parseOneStyle`, which writes one rule; `Stylesheet`, which joins the rules of several
 * selectors; and the stylesheet `Main` renders. A style is its entries in `Object.entries`
 * order, each value already written as the text it concatenates to.
 */
module ReactUtil {
  import opened Wrappers
  import opened Js
  import opened Strings

  /** `\w`: a letter, a digit or `_`. */
  predicate IsWordChar(ch: char)
  {
    'a' <= ch <= 'z' || 'A' <= ch <= 'Z' || IsDigit(ch) || ch == '_'
  }

  /** `[a-z\d]`. */
  predicate IsLowerOrDigit(ch: char)
  {
    'a' <= ch <= 'z' || IsDigit(ch)
  }

  /** `[A-Z]`. */
  predicate IsUpper(ch: char)
  {
    'A' <= ch <= 'Z'
  }

  /** The characters of `s` that satisfy `p`, in order. */
  function Keep(s: string, p: char -> bool): (r: string)
    ensures |r| <= |s|
  {
    if s == [] then "" else (if p(s[0]) then [s[0]] else "") + Keep(s[1..], p)
  }

  /** What a name is made of after the first replacement: word characters and single dashes. */
  predicate Dashed(s: string)
  {
    (forall i :: 0 <= i < |s| ==> IsWordChar(s[i]) || s[i] == '-') &&
    (forall i :: 0 <= i < |s| - 1 ==> IsWordChar(s[i]) || IsWordChar(s[i + 1]))
  }

  /** No lowercase letter or digit is directly followed by an uppercase letter. */
  predicate NoCamelBoundary(s: string)
  {
    forall i :: 0 <= i < |s| - 1 ==> !(IsLowerOrDigit(s[i]) && IsUpper(s[i + 1]))
  }

  /** `s` without its leading run of non-word characters. */
  function SkipNonWord(s: string): (r: string)
    ensures |r| <= |s|
    ensures s != [] && !IsWordChar(s[0]) ==> |r| < |s|
    ensures r == [] || IsWordChar(r[0])
  {
    if s != [] && !IsWordChar(s[0]) then SkipNonWord(s[1..]) else s
  }

  /**
   * `s.replace(/\W+/g, "-")`: each maximal run of non-word characters becomes one dash.
   */
  function DashRuns(s: string): (r: string)
    ensures |r| == 0 <==> |s| == 0
    ensures s != [] ==> r[0] == if IsWordChar(s[0]) then s[0] else '-'
    decreases |s|
  {
    if s == [] then ""
    else if IsWordChar(s[0]) then [s[0]] + DashRuns(s[1..])
    else "-" + DashRuns(SkipNonWord(s))
  }

  /**
   * `s.replace(/([a-z\d])([A-Z])/g, "$1-$2")`: the global scan resumes after each match, so
   * it puts a dash at every boundary between a lowercase letter or digit and an uppercase
   * letter, and inserts nothing else.
   */
  function SplitCamel(s: string): (r: string)
    ensures |s| > 0 ==> |r| > 0 && r[0] == s[0]
    decreases |s|
  {
    if |s| < 2 then s
    else if IsLowerOrDigit(s[0]) && IsUpper(s[1]) then [s[0], '-', s[1]] + SplitCamel(s[2..])
    else [s[0]] + SplitCamel(s[1..])
  }

  /** `camelToDash(str)`. */
  function CamelToDash(str: string): string
  {
    SplitCamel(DashRuns(str))
  }

  /** A dash is not a word character. */
  predicate NotDash(ch: char)
  {
    ch != '-'
  }

  /** Keeping from a concatenation keeps from each part. */
  lemma {:induction false} KeepAppend(a: string, b: string, p: char -> bool)
    ensures Keep(a + b, p) == Keep(a, p) + Keep(b, p)
    decreases |a|
  {
    if a != [] {
      KeepAppend(a[1..], b, p);
      var h := if p(a[0]) then [a[0]] else "";
      assert (a + b)[0] == a[0] && (a + b)[1..] == a[1..] + b;
      assert Keep(a + b, p) == h + Keep(a[1..] + b, p);
      assert Keep(a, p) == h + Keep(a[1..], p);
      assert h + (Keep(a[1..], p) + Keep(b, p)) == (h + Keep(a[1..], p)) + Keep(b, p);
    } else {
      assert a + b == b;
    }
  }

  /** Skipping the leading non-word run drops no word character. */
  lemma {:induction false} SkipNonWordKeeps(s: string)
    ensures Keep(SkipNonWord(s), IsWordChar) == Keep(s, IsWordChar)
    decreases |s|
  {
    if s != [] && !IsWordChar(s[0]) {
      SkipNonWordKeeps(s[1..]);
    }
  }

  /** The first replacement leaves word characters and single dashes only. */
  lemma {:induction false} DashRunsDashed(s: string)
    ensures Dashed(DashRuns(s))
    decreases |s|
  {
    if s != [] {
      var rest := if IsWordChar(s[0]) then s[1..] else SkipNonWord(s);
      DashRunsDashed(rest);
      var head := if IsWordChar(s[0]) then [s[0]] else "-";
      var tail := DashRuns(rest);
      var r := DashRuns(s);
      assert r == head + tail;
      assert !IsWordChar(s[0]) ==> tail == [] || IsWordChar(tail[0]);
      forall i | 0 <= i < |r| ensures IsWordChar(r[i]) || r[i] == '-' {
        if i > 0 {
          assert r[i] == tail[i - 1];
        }
      }
      forall i | 0 <= i < |r| - 1 ensures IsWordChar(r[i]) || IsWordChar(r[i + 1]) {
        if i > 0 {
          assert r[i] == tail[i - 1] && r[i + 1] == tail[i];
        }
      }
    }
  }

  /** The first replacement keeps the word characters in order. */
  lemma {:induction false} DashRunsKeeps(s: string)
    ensures Keep(DashRuns(s), IsWordChar) == Keep(s, IsWordChar)
    decreases |s|
  {
    if s != [] {
      if IsWordChar(s[0]) {
        DashRunsKeeps(s[1..]);
        assert DashRuns(s) == [s[0]] + DashRuns(s[1..]);
        KeepAppend([s[0]], DashRuns(s[1..]), IsWordChar);
      } else {
        DashRunsKeeps(SkipNonWord(s));
        SkipNonWordKeeps(s);
        KeepAppend("-", DashRuns(SkipNonWord(s)), IsWordChar);
      }
    }
  }

  /** A name already made of word characters and single dashes is left alone by the first replacement. */
  lemma {:induction false} DashRunsFixed(s: string)
    requires Dashed(s)
    ensures DashRuns(s) == s
    decreases |s|
  {
    if s != [] {
      var t := s[1..];
      assert forall i :: 0 <= i < |t| ==> t[i] == s[i + 1];
      assert Dashed(t);
      DashRunsFixed(t);
      if !IsWordChar(s[0]) {
        assert t == [] || IsWordChar(t[0]);
        assert SkipNonWord(s) == SkipNonWord(t) == t;
      }
    }
  }

  /**
   * The second replacement inserts dashes only, leaves no lowercase letter or digit directly
   * before an uppercase one, and keeps the word characters in order.
   */
  lemma {:induction false} SplitCamelShape(s: string)
    ensures NoCamelBoundary(SplitCamel(s))
    ensures Keep(SplitCamel(s), NotDash) == Keep(s, NotDash)
    ensures Keep(SplitCamel(s), IsWordChar) == Keep(s, IsWordChar)
    decreases |s|
  {
    if |s| >= 2 {
      var r := SplitCamel(s);
      var n := if IsLowerOrDigit(s[0]) && IsUpper(s[1]) then 2 else 1;
      var head := if n == 2 then [s[0], '-', s[1]] else [s[0]];
      var rest := SplitCamel(s[n..]);
      SplitCamelShape(s[n..]);
      assert r == head + rest;
      forall i | 0 <= i < |r| - 1 ensures !(IsLowerOrDigit(r[i]) && IsUpper(r[i + 1])) {
        if i >= |head| {
          assert r[i] == rest[i - |head|] && r[i + 1] == rest[i + 1 - |head|];
        } else if i == |head| - 1 {
          assert r[i + 1] == rest[0] == s[n];
        }
      }
      KeepAppend(head, rest, NotDash);
      KeepAppend(head, rest, IsWordChar);
      assert s == s[..n] + s[n..];
      KeepAppend(s[..n], s[n..], NotDash);
      KeepAppend(s[..n], s[n..], IsWordChar);
      if n == 2 {
        assert Keep(head, NotDash) == [s[0], s[1]] == Keep(s[..n], NotDash) by {
          assert head[1..] == ['-', s[1]] && head[1..][1..] == [s[1]];
          assert s[..n][1..] == [s[1]];
        }
        assert Keep(head, IsWordChar) == Keep(s[..n], IsWordChar) by {
          assert head[1..] == ['-', s[1]] && head[1..][1..] == [s[1]];
          assert s[..n][1..] == [s[1]];
        }
      } else {
        assert head == s[..n];
      }
    }
  }

  /** A name the second replacement leaves alone is exactly one without a camel boundary. */
  lemma {:induction false} SplitCamelFixed(s: string)
    ensures SplitCamel(s) == s <==> NoCamelBoundary(s)
    decreases |s|
  {
    SplitCamelShape(s);
    if |s| >= 2 {
      var t := s[1..];
      SplitCamelFixed(t);
      assert forall i :: 0 <= i < |t| ==> t[i] == s[i + 1];
      if IsLowerOrDigit(s[0]) && IsUpper(s[1]) {
        assert SplitCamel(s)[1] == '-' != s[1];
      } else {
        assert NoCamelBoundary(s) <==> NoCamelBoundary(t);
        assert SplitCamel(s) == [s[0]] + SplitCamel(t);
        assert s == [s[0]] + t;
      }
    }
  }

  /** The second replacement keeps a name made of word characters and single dashes so. */
  lemma {:induction false} SplitCamelDashed(s: string)
    requires Dashed(s)
    ensures Dashed(SplitCamel(s))
    decreases |s|
  {
    if |s| >= 2 {
      var r := SplitCamel(s);
      var n := if IsLowerOrDigit(s[0]) && IsUpper(s[1]) then 2 else 1;
      var head := if n == 2 then [s[0], '-', s[1]] else [s[0]];
      var t := s[n..];
      assert forall i :: 0 <= i < |t| ==> t[i] == s[i + n];
      assert Dashed(t);
      SplitCamelDashed(t);
      var rest := SplitCamel(t);
      assert r == head + rest;
      forall i | 0 <= i < |r| ensures IsWordChar(r[i]) || r[i] == '-' {
        if i >= |head| {
          assert r[i] == rest[i - |head|];
        }
      }
      forall i | 0 <= i < |r| - 1 ensures IsWordChar(r[i]) || IsWordChar(r[i + 1]) {
        if i >= |head| {
          assert r[i] == rest[i - |head|] && r[i + 1] == rest[i + 1 - |head|];
        } else if i == |head| - 1 {
          assert r[i + 1] == rest[0] == s[n];
        }
      }
    }
  }

  /**
   * What `camelToDash` returns: word characters and single dashes, no lowercase letter or
   * digit directly before an uppercase one, and the word characters of `str` in order, their
   * case kept.
   */
  lemma CamelToDashShape(str: string)
    ensures Dashed(CamelToDash(str)) && NoCamelBoundary(CamelToDash(str))
    ensures Keep(CamelToDash(str), IsWordChar) == Keep(str, IsWordChar)
  {
    DashRunsDashed(str);
    DashRunsKeeps(str);
    SplitCamelDashed(DashRuns(str));
    SplitCamelShape(DashRuns(str));
  }

  /** `camelToDash` of a name it has already converted changes nothing. */
  lemma CamelToDashIdempotent(str: string)
    ensures CamelToDash(CamelToDash(str)) == CamelToDash(str)
  {
    var once := CamelToDash(str);
    CamelToDashShape(str);
    DashRunsFixed(once);
    SplitCamelFixed(once);
  }

  /** A character that is neither a word character nor a dash never appears in a converted name. */
  lemma NameWithout(field: string, ch: char)
    requires !IsWordChar(ch) && ch != '-'
    ensures ch !in CamelToDash(field)
  {
    CamelToDashShape(field);
    var name := CamelToDash(field);
    assert forall i :: 0 <= i < |name| ==> name[i] != ch;
  }

  /** A React field becomes a dashed name with its case kept. */
  lemma CamelToDashKeepsCase()
    ensures CamelToDash("zIndex") == "z-Index"
  {
    assert Dashed("zIndex");
    DashRunsFixed("zIndex");
    assert NoCamelBoundary("ndex");
    SplitCamelFixed("ndex");
    assert "zIndex"[2..] == "ndex";
  }

  /** A run of punctuation becomes a single dash. */
  lemma CamelToDashJoinsRuns()
    ensures CamelToDash("a  b") == "a-b"
  {
    assert "  b"[1..] == " b" && " b"[1..] == "b";
    assert SkipNonWord("  b") == "b";
    assert Dashed("b");
    DashRunsFixed("b");
    assert "a  b"[1..] == "  b";
    assert DashRuns("a  b") == "a-b";
    assert NoCamelBoundary("a-b");
    SplitCamelFixed("a-b");
  }

  /** One declaration of a rule: `camelToDash(field) + ":" + value + ";"`. */
  function Declaration(field: string, value: string): string
  {
    CamelToDash(field) + ":" + value + ";"
  }

  /** The declarations of a style, one after the other in entry order. */
  function Declarations(style: Entries<string>): string
  {
    if style == [] then "" else Declaration(style[0].0, style[0].1) + Declarations(style[1..])
  }

  /** `${selector} {${code}}`, the rule `parseOneStyle` returns. */
  function Rule(selector: string, style: Entries<string>): string
  {
    selector + " {" + Declarations(style) + "}"
  }

  /** Appending an entry appends its declaration. */
  lemma {:induction false} DeclarationsSnoc(style: Entries<string>, field: string, value: string)
    ensures Declarations(style + [(field, value)]) == Declarations(style) + Declaration(field, value)
    decreases |style|
  {
    if style != [] {
      DeclarationsSnoc(style[1..], field, value);
      assert (style + [(field, value)])[1..] == style[1..] + [(field, value)];
    }
  }

  /** `parseOneStyle(selector, style)`: the loop that accumulates `code` entry by entry. */
  method ParseOneStyle(selector: string, style: Entries<string>) returns (css: string)
    ensures css == Rule(selector, style)
  {
    var code := "";
    var i := 0;
    while i < |style|
      invariant 0 <= i <= |style|
      invariant code == Declarations(style[..i])
    {
      var (field, value) := style[i];
      DeclarationsSnoc(style[..i], field, value);
      assert style[..i + 1] == style[..i] + [(field, value)];
      ghost var before := code;
      code := code + CamelToDash(field) + ":" + value + ";";
      assert code == before + Declaration(field, value);
      i := i + 1;
    }
    assert style[..i] == style;
    css := selector + " {" + code + "}";
  }

  /** The property name and the value of each declaration, as `name:value`. */
  function DeclarationBodies(style: Entries<string>): (r: seq<string>)
    ensures |r| == |style|
  {
    seq(|style|, i requires 0 <= i < |style| => CamelToDash(style[i].0) + ":" + style[i].1)
  }

  /** A character that is neither a word character, nor a dash, nor ":" or ";". */
  predicate Foreign(ch: char)
  {
    !IsWordChar(ch) && ch !in "-:;"
  }

  /** A character outside every value and outside the declaration syntax is absent from the declarations. */
  lemma {:induction false} DeclarationsWithout(style: Entries<string>, ch: char)
    requires Foreign(ch) && forall i :: 0 <= i < |style| ==> ch !in style[i].1
    ensures ch !in Declarations(style)
    decreases |style|
  {
    if style != [] {
      DeclarationsWithout(style[1..], ch);
      NameWithout(style[0].0, ch);
    }
  }

  /**
   * When no value holds a ";", splitting the declarations at ";" recovers every
   * `name:value` in entry order, followed by the empty piece after the last ";".
   */
  lemma {:induction false} DeclarationsSplit(style: Entries<string>)
    requires forall i :: 0 <= i < |style| ==> ';' !in style[i].1
    ensures Split(Declarations(style), ';') == DeclarationBodies(style) + [""]
    decreases |style|
  {
    if style != [] {
      DeclarationsSplit(style[1..]);
      NameWithout(style[0].0, ';');
      var body := CamelToDash(style[0].0) + ":" + style[0].1;
      assert ';' !in body;
      assert Declaration(style[0].0, style[0].1) == body + [';'];
      assert Declarations(style) == body + [';'] + Declarations(style[1..]);
      SplitAfter(body, ';', Declarations(style[1..]));
      assert DeclarationBodies(style) == [body] + DeclarationBodies(style[1..]);
    }
  }

  /** Each `name:value` splits at ":" into the property name and the value, when the value has no ":". */
  lemma DeclarationBodySplit(field: string, value: string)
    requires ':' !in value
    ensures Split(CamelToDash(field) + ":" + value, ':') == [CamelToDash(field), value]
  {
    NameWithout(field, ':');
    var name := CamelToDash(field);
    SplitAfter(name, ':', value);
    SplitWithout(value, ':');
  }

  /** The rules of a stylesheet, one per selector in entry order. */
  function Rules(styles: Entries<Entries<string>>): (r: seq<string>)
    ensures |r| == |styles|
  {
    seq(|styles|, i requires 0 <= i < |styles| => Rule(styles[i].0, styles[i].1))
  }

  /** The text of `<Stylesheet styles={styles} />`: the rules joined by newlines. */
  function Stylesheet(styles: Entries<Entries<string>>): string
  {
    Join(Rules(styles), '\n')
  }

  /** A selector or style holds no newline. */
  predicate OneLine(styles: Entries<Entries<string>>)
  {
    forall i :: 0 <= i < |styles| ==>
      '\n' !in styles[i].0 && forall j :: 0 <= j < |styles[i].1| ==> '\n' !in styles[i].1[j].1
  }

  /** When no selector or value holds a newline, the stylesheet has one line per selector, in order. */
  lemma StylesheetLines(styles: Entries<Entries<string>>)
    requires |styles| >= 1 && OneLine(styles)
    ensures Split(Stylesheet(styles), '\n') == Rules(styles)
  {
    var rules := Rules(styles);
    forall i | 0 <= i < |rules| ensures '\n' !in rules[i] {
      DeclarationsWithout(styles[i].1, '\n');
    }
    SplitJoin(rules, '\n');
  }

  /** The stylesheet `Main` renders: none without `style`, else one rule for `body>main`. */
  function MainStylesheet(style: Option<Entries<string>>): (sheet: Option<string>)
    ensures sheet.Some? <==> style.Some?
    ensures style.Some? ==> sheet.value == Rule("body>main", style.value)
  {
    if style.None? then None else Some(Stylesheet([("body>main", style.value)]))
  }
}

/**
 * The `slugify` rewrite shared by both pages: lower-case the text, turn every
 * run of whitespace into one '-', drop every character that is not a word
 * character or '-', collapse runs of '-', and trim '-' from both ends.
 * Each regular-expression pass is one function below; the whitespace pass
 * and the hyphen pass are the same rewrite, `Runs`, over two classes.
 */
module Slug {

  /** The characters JavaScript's `\s` matches (without the `u` flag). */
  predicate IsSpace(c: char)
  {
    c == '\t' || c == '\n' || c == '\U{000B}' || c == '\U{000C}' || c == '\r' || c == ' '
    || c == '\U{00A0}' || c == '\U{1680}' || ('\U{2000}' <= c <= '\U{200A}')
    || c == '\U{2028}' || c == '\U{2029}' || c == '\U{202F}' || c == '\U{205F}'
    || c == '\U{3000}' || c == '\U{FEFF}'
  }

  predicate IsUpper(c: char) { 'A' <= c <= 'Z' }

  /** The characters JavaScript's `\w` matches: `[A-Za-z0-9_]`. */
  predicate IsWordChar(c: char)
  {
    'a' <= c <= 'z' || IsUpper(c) || '0' <= c <= '9' || c == '_'
  }

  /** A character that may appear in a slug: `[a-z0-9_-]`. */
  predicate IsSlugChar(c: char)
  {
    'a' <= c <= 'z' || '0' <= c <= '9' || c == '_' || c == '-'
  }

  predicate NoDoubleHyphen(s: string)
  {
    forall i | 0 <= i < |s| - 1 :: !(s[i] == '-' && s[i + 1] == '-')
  }

  /** The shape of every slug: only slug characters, no "--", no '-' at either end. */
  predicate IsSlug(s: string)
  {
    (forall i | 0 <= i < |s| :: IsSlugChar(s[i]))
    && NoDoubleHyphen(s)
    && (s != [] ==> s[0] != '-' && s[|s| - 1] != '-')
  }

  function LowerChar(c: char): (d: char)
    ensures !IsUpper(d)
    ensures !IsUpper(c) ==> d == c
    ensures IsUpper(c) ==> d as int == c as int + 32
  {
    if IsUpper(c) then (c as int - 'A' as int + 'a' as int) as char else c
  }

  /** `toLowerCase()`, on ASCII letters. */
  function Lower(s: string): string
  {
    if s == [] then [] else [LowerChar(s[0])] + Lower(s[1..])
  }

  lemma {:induction false} LowerShape(s: string)
    ensures |Lower(s)| == |s|
    ensures forall i | 0 <= i < |s| :: Lower(s)[i] == LowerChar(s[i])
  {
    if s != [] {
      LowerShape(s[1..]);
    }
  }

  /**
   * One `.replace(/[C]+/g, '-')` pass: every run of characters of the class
   * `inClass` becomes one '-'; `inRun` says that the previous character was
   * in the class.
   */
  function Runs(s: string, inClass: char -> bool, inRun: bool): string
  {
    if s == [] then []
    else if inClass(s[0]) then (if inRun then [] else "-") + Runs(s[1..], inClass, true)
    else [s[0]] + Runs(s[1..], inClass, false)
  }

  /** `.replace(/\s+/g, '-')`. */
  function SpaceRuns(s: string, inRun: bool): string
  {
    Runs(s, IsSpace, inRun)
  }

  /** `.replace(/[^\w\-]+/g, '')`. */
  function KeepWord(s: string): string
  {
    if s == [] then []
    else if IsWordChar(s[0]) || s[0] == '-' then [s[0]] + KeepWord(s[1..])
    else KeepWord(s[1..])
  }

  predicate IsHyphen(c: char) { c == '-' }

  /**
   * `.replace(/\-\-+/g, '-')`: a run of two or more '-' becomes one '-' and
   * a lone '-' stays, so every run of '-' ends up as one '-'; `afterHyphen`
   * says that the previous character was '-'.
   */
  function Collapse(s: string, afterHyphen: bool): string
  {
    Runs(s, IsHyphen, afterHyphen)
  }

  /** `.replace(/^-+/, '')`. */
  function TrimStart(s: string): string
  {
    if s != [] && s[0] == '-' then TrimStart(s[1..]) else s
  }

  lemma {:induction false} TrimStartShape(s: string)
    ensures var r := TrimStart(s); |r| <= |s| && r == s[|s| - |r|..] && (r == [] || r[0] != '-')
    ensures forall i | 0 <= i < |s| - |TrimStart(s)| :: s[i] == '-'
  {
    if s != [] && s[0] == '-' {
      TrimStartShape(s[1..]);
      forall i | 1 <= i < |s| - |TrimStart(s)| ensures s[i] == '-' {
        assert s[i] == s[1..][i - 1];
      }
    }
  }

  /** `.replace(/-+$/, '')`. */
  function TrimEnd(s: string): string
  {
    if s != [] && s[|s| - 1] == '-' then TrimEnd(s[..|s| - 1]) else s
  }

  lemma {:induction false} TrimEndShape(s: string)
    ensures var r := TrimEnd(s); |r| <= |s| && r == s[..|r|] && (r == [] || r[|r| - 1] != '-')
    ensures forall i | |TrimEnd(s)| <= i < |s| :: s[i] == '-'
  {
    if s != [] && s[|s| - 1] == '-' {
      TrimEndShape(s[..|s| - 1]);
      forall i | |TrimEnd(s)| <= i < |s| - 1 ensures s[i] == '-' {
        assert s[i] == s[..|s| - 1][i];
      }
    }
  }

  /** `slugify(text)` of www/verdict.js and www/death_penalty.js. */
  function Slugify(text: string): string
  {
    TrimEnd(TrimStart(Collapse(KeepWord(SpaceRuns(Lower(text), false)), false)))
  }

  lemma {:induction false} RunsChars(s: string, inClass: char -> bool, inRun: bool)
    ensures forall c | c in Runs(s, inClass, inRun) :: c in s || c == '-'
  {
    if s != [] {
      RunsChars(s[1..], inClass, inClass(s[0]));
    }
  }

  lemma {:induction false} KeepWordChars(s: string)
    ensures forall c | c in KeepWord(s) :: c in s && (IsWordChar(c) || c == '-')
  {
    if s != [] {
      KeepWordChars(s[1..]);
    }
  }

  /** The non-word pass keeps one character exactly when it is a word character or '-'. */
  lemma KeepWordOne(c: char)
    ensures KeepWord([c]) == if IsWordChar(c) || c == '-' then [c] else []
  {
    assert [c][1..] == [];
  }

  /** The non-word pass works character by character, so every kept character stays, in order. */
  lemma {:induction false} KeepWordConcat(a: string, b: string)
    ensures KeepWord(a + b) == KeepWord(a) + KeepWord(b)
  {
    if a == [] {
      assert a + b == b;
    } else {
      assert (a + b)[0] == a[0];
      assert (a + b)[1..] == a[1..] + b;
      KeepWordConcat(a[1..], b);
    }
  }

  lemma {:induction false} CollapseShape(s: string, afterHyphen: bool)
    ensures forall c | c in Collapse(s, afterHyphen) :: c in s
    ensures NoDoubleHyphen(Collapse(s, afterHyphen))
    ensures afterHyphen && Collapse(s, afterHyphen) != [] ==> Collapse(s, afterHyphen)[0] != '-'
  {
    if s != [] {
      CollapseShape(s[1..], s[0] == '-');
      var t := Collapse(s[1..], s[0] == '-');
      var r := Collapse(s, afterHyphen);
      if s[0] == '-' && !afterHyphen {
        assert r == "-" + t;
        forall i | 0 <= i < |r| - 1 ensures !(r[i] == '-' && r[i + 1] == '-') {
          if i > 0 { assert r[i] == t[i - 1] && r[i + 1] == t[i]; }
        }
      } else if s[0] != '-' {
        assert r == [s[0]] + t;
        forall i | 0 <= i < |r| - 1 ensures !(r[i] == '-' && r[i + 1] == '-') {
          if i > 0 { assert r[i] == t[i - 1] && r[i + 1] == t[i]; }
        }
      }
    }
  }

  lemma ConcatAssoc(x: string, y: string, z: string)
    ensures x + (y + z) == (x + y) + z
  {
  }

  /** Runs works left to right: `a + b` rewrites as `a`, then `b` in the state `a` leaves. */
  lemma {:induction false} RunsConcat(a: string, b: string, inClass: char -> bool, inRun: bool)
    ensures Runs(a + b, inClass, inRun)
      == Runs(a, inClass, inRun) + Runs(b, inClass, if a == [] then inRun else inClass(a[|a| - 1]))
    decreases |a|
  {
    if a == [] {
      assert a + b == b;
    } else {
      assert (a + b)[0] == a[0] && (a + b)[1..] == a[1..] + b;
      RunsConcat(a[1..], b, inClass, inClass(a[0]));
      assert a[1..] != [] ==> a[1..][|a[1..]| - 1] == a[|a| - 1];
      var head: string := if inClass(a[0]) then (if inRun then [] else "-") else [a[0]];
      var x := Runs(a[1..], inClass, inClass(a[0]));
      var y := Runs(b, inClass, inClass(a[|a| - 1]));
      ConcatAssoc(head, x, y);
    }
  }

  /** A non-empty run of class characters gives one '-', or nothing when a run is already open. */
  lemma {:induction false} RunsOfRun(run: string, rest: string, inClass: char -> bool, inRun: bool)
    requires run != [] && forall i | 0 <= i < |run| :: inClass(run[i])
    ensures Runs(run + rest, inClass, inRun) == (if inRun then [] else "-") + Runs(rest, inClass, true)
    decreases |run|
  {
    assert (run + rest)[0] == run[0] && (run + rest)[1..] == run[1..] + rest;
    if |run| > 1 {
      RunsOfRun(run[1..], rest, inClass, true);
    } else {
      assert run[1..] + rest == rest;
    }
  }

  /** A run of class characters at the front, before a character outside the class, turns into one '-'. */
  lemma RunThenRest(run: string, after: string, inClass: char -> bool)
    requires run != [] && forall i | 0 <= i < |run| :: inClass(run[i])
    requires after == [] || !inClass(after[0])
    ensures Runs(run + after, inClass, false) == "-" + Runs(after, inClass, false)
  {
    RunsOfRun(run, after, inClass, false);
    assert Runs(after, inClass, true) == Runs(after, inClass, false);
  }

  /** A run of class characters between two characters outside the class turns into exactly one '-'. */
  lemma RunBecomesHyphen(before: string, run: string, after: string, inClass: char -> bool)
    requires before == [] || !inClass(before[|before| - 1])
    requires run != [] && forall i | 0 <= i < |run| :: inClass(run[i])
    requires after == [] || !inClass(after[0])
    ensures Runs(before + (run + after), inClass, false)
      == Runs(before, inClass, false) + ("-" + Runs(after, inClass, false))
  {
    RunsConcat(before, run + after, inClass, false);
    RunThenRest(run, after, inClass);
  }

  /** `\s+` becomes '-': a whitespace run between characters that are not whitespace turns into exactly one '-'. */
  lemma SpaceRunBecomesHyphen(before: string, run: string, after: string)
    requires before == [] || !IsSpace(before[|before| - 1])
    requires run != [] && forall i | 0 <= i < |run| :: IsSpace(run[i])
    requires after == [] || !IsSpace(after[0])
    ensures SpaceRuns(before + (run + after), false) == SpaceRuns(before, false) + ("-" + SpaceRuns(after, false))
  {
    RunBecomesHyphen(before, run, after, IsSpace);
  }

  /** `\-\-+` becomes '-': a run of hyphens between other characters turns into exactly one '-'. */
  lemma CollapseRunBecomesHyphen(before: string, run: string, after: string)
    requires before == [] || before[|before| - 1] != '-'
    requires run != [] && forall i | 0 <= i < |run| :: run[i] == '-'
    requires after == [] || after[0] != '-'
    ensures Collapse(before + (run + after), false) == Collapse(before, false) + ("-" + Collapse(after, false))
  {
    RunBecomesHyphen(before, run, after, IsHyphen);
  }

  /** After `toLowerCase` and the two rewrites before the collapse, only slug characters are left. */
  lemma KeptCharsAreSlugChars(text: string)
    ensures forall c | c in KeepWord(SpaceRuns(Lower(text), false)) :: IsSlugChar(c)
  {
    var lowered := Lower(text);
    var spaced := SpaceRuns(lowered, false);
    LowerShape(text);
    RunsChars(lowered, IsSpace, false);
    KeepWordChars(spaced);
    forall c | c in lowered ensures !IsUpper(c) {
      var i :| 0 <= i < |lowered| && lowered[i] == c;
    }
  }

  /** The two trims keep the characters and the absence of "--", and remove '-' at both ends. */
  lemma TrimsShape(s: string)
    requires forall c | c in s :: IsSlugChar(c)
    requires NoDoubleHyphen(s)
    ensures IsSlug(TrimEnd(TrimStart(s)))
  {
    var t := TrimStart(s);
    var r := TrimEnd(t);
    TrimStartShape(s);
    TrimEndShape(t);
    var k := |s| - |t|;
    forall i | 0 <= i < |r| ensures IsSlugChar(r[i]) {
      assert r[i] == t[i] == s[k + i];
      assert s[k + i] in s;
    }
    forall i | 0 <= i < |r| - 1 ensures !(r[i] == '-' && r[i + 1] == '-') {
      assert r[i] == s[k + i] && r[i + 1] == s[k + i + 1];
    }
    assert r != [] ==> r[0] == t[0];
  }

  /** Every result of Slugify has the slug shape. */
  lemma SlugifyIsSlug(text: string)
    ensures IsSlug(Slugify(text))
  {
    var kept := KeepWord(SpaceRuns(Lower(text), false));
    KeptCharsAreSlugChars(text);
    CollapseShape(kept, false);
    TrimsShape(Collapse(kept, false));
  }

  lemma {:induction false} SpaceRunsFixes(s: string, inRun: bool)
    requires forall i | 0 <= i < |s| :: IsSlugChar(s[i])
    ensures SpaceRuns(s, inRun) == s
  {
    if s != [] {
      SpaceRunsFixes(s[1..], false);
    }
  }

  lemma {:induction false} KeepWordFixes(s: string)
    requires forall i | 0 <= i < |s| :: IsSlugChar(s[i])
    ensures KeepWord(s) == s
  {
    if s != [] {
      KeepWordFixes(s[1..]);
    }
  }

  lemma {:induction false} CollapseFixes(s: string, afterHyphen: bool)
    requires NoDoubleHyphen(s)
    requires afterHyphen ==> s == [] || s[0] != '-'
    ensures Collapse(s, afterHyphen) == s
  {
    if s != [] {
      assert s[1..] == [] || !(s[0] == '-' && s[1] == '-');
      CollapseFixes(s[1..], s[0] == '-');
    }
  }

  /** Slugify leaves a slug as it is. */
  lemma SlugifyFixesSlugs(s: string)
    requires IsSlug(s)
    ensures Slugify(s) == s
  {
    LowerShape(s);
    assert Lower(s) == s;
    SpaceRunsFixes(s, false);
    KeepWordFixes(s);
    CollapseFixes(s, false);
  }

  /** `slugify(slugify(x)) == slugify(x)`. */
  lemma SlugifyIdempotent(text: string)
    ensures Slugify(Slugify(text)) == Slugify(text)
  {
    SlugifyIsSlug(text);
    SlugifyFixesSlugs(Slugify(text));
  }

  /** The strings Slugify can produce are exactly the slugs. */
  lemma SlugifyRange(t: string)
    ensures (exists text :: Slugify(text) == t) <==> IsSlug(t)
  {
    if IsSlug(t) {
      SlugifyFixesSlugs(t);
    }
    forall text | Slugify(text) == t ensures IsSlug(t) {
      SlugifyIsSlug(text);
    }
  }

  /** A slug never holds whitespace nor a double quote, so it can stand in an HTML attribute. */
  lemma SlugHasNoSpaceOrQuote(s: string)
    requires IsSlug(s)
    ensures forall i | 0 <= i < |s| :: !IsSpace(s[i]) && s[i] != '"'
  {
  }

  lemma SlugifyEmpty()
    ensures Slugify("") == ""
  {
  }
}

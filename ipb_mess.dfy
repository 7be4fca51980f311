/**
 * ipb_mess.py: the value-escaping chain the legacy board software applies to
 * text before storing it (`ipb_clean_value`). It is an ordered list of
 * replacers, each a plain `str.replace` or a case-insensitive regular
 * expression substitution, applied one after the other.
 */
module IpbMess {
  import opened Strings

  /** A replacer built by `_make_str_replacer` or `_make_regex_replacer`. */
  datatype Replacer =
    | StrReplacer(pattern: string, replacement: string)
      /** `_make_regex_replacer("(?i)" + pattern, replacement)` for a literal pattern. */
    | IgnoreCaseReplacer(pattern: string, replacement: string)

  /** Applying one replacer to a value. */
  function Apply(rep: Replacer, value: string): string
    requires rep.IgnoreCaseReplacer? ==> |rep.pattern| > 0
  {
    match rep
    case StrReplacer(p, r) => Replace(value, p, r)
    case IgnoreCaseReplacer(p, r) => ReplaceIgnoreCase(value, p, r)
  }

  predicate WellFormed(reps: seq<Replacer>) {
    forall i :: 0 <= i < |reps| ==> (reps[i].IgnoreCaseReplacer? ==> |reps[i].pattern| > 0)
  }

  /** `_simple_value_replaces`, in order (the commented-out entries are not part of it). */
  const SimpleValueReplaces: seq<Replacer> := [
    StrReplacer("&#032;", " "),
    StrReplacer("&", "&amp;"),
    StrReplacer("<!--", "&#60;&#33;--"),
    StrReplacer("-->", "--&#62;"),
    IgnoreCaseReplacer("<script", "&#60;script"),
    StrReplacer(">", "&gt;"),
    StrReplacer("<", "&lt;"),
    StrReplacer("\"", "&quot;"),
    StrReplacer("!", "&#33;"),
    StrReplacer("'", "&#39;")
  ]

  /** The replacers applied in order, first to last. */
  function ApplyAll(reps: seq<Replacer>, value: string): string
    requires WellFormed(reps)
  {
    if |reps| == 0 then value
    else Apply(reps[|reps| - 1], ApplyAll(reps[..|reps| - 1], value))
  }

  /** `ipb_clean_value(value)`: the loop over `_simple_value_replaces`. */
  method CleanValue(value: string) returns (r: string)
    ensures r == ApplyAll(SimpleValueReplaces, value)
  {
    r := value;
    for i := 0 to |SimpleValueReplaces|
      invariant r == ApplyAll(SimpleValueReplaces[..i], value)
    {
      assert SimpleValueReplaces[..i + 1][..i] == SimpleValueReplaces[..i];
      r := Apply(SimpleValueReplaces[i], r);
    }
    assert SimpleValueReplaces[..|SimpleValueReplaces|] == SimpleValueReplaces;
  }

  /** A character neither in the value nor in the replacement is not in the result. */
  lemma ApplyKeepsAbsent(rep: Replacer, value: string, d: char)
    requires rep.IgnoreCaseReplacer? ==> |rep.pattern| > 0
    requires d !in value && d !in rep.replacement
    ensures d !in Apply(rep, value)
  {
    if rep.StrReplacer? {
      ReplaceKeepsAbsent(value, rep.pattern, rep.replacement, d);
    } else {
      ReplaceIgnoreCaseKeepsAbsent(value, rep.pattern, rep.replacement, d);
    }
  }

  /** Once a character is gone, replacers that do not reintroduce it keep it out. */
  lemma {:induction false} StaysRemoved(reps: seq<Replacer>, value: string, d: char, k: nat)
    requires WellFormed(reps) && k <= |reps|
    requires d !in ApplyAll(reps[..k], value)
    requires forall j :: k <= j < |reps| ==> d !in reps[j].replacement
    ensures d !in ApplyAll(reps, value)
    decreases |reps|
  {
    if |reps| > k {
      var init := reps[..|reps| - 1];
      assert init[..k] == reps[..k];
      StaysRemoved(init, value, d, k);
      ApplyKeepsAbsent(reps[|reps| - 1], ApplyAll(init, value), d);
    } else {
      assert reps[..k] == reps;
    }
  }

  /** After step `k` (a one-character pattern whose replacement lacks it), the character is gone. */
  lemma RemovedAt(value: string, k: nat, c: char)
    requires k < |SimpleValueReplaces|
    requires SimpleValueReplaces[k].StrReplacer? && SimpleValueReplaces[k].pattern == [c]
    requires c !in SimpleValueReplaces[k].replacement
    requires forall j :: k < j < |SimpleValueReplaces| ==> c !in SimpleValueReplaces[j].replacement
    ensures c !in ApplyAll(SimpleValueReplaces, value)
  {
    var steps := SimpleValueReplaces;
    var before := ApplyAll(steps[..k], value);
    assert steps[..k + 1][..k] == steps[..k];
    ReplaceRemovesChar(before, c, steps[k].replacement);
    StaysRemoved(steps, value, c, k + 1);
  }

  /** The cleaned value holds none of the characters the chain escapes: `>`, `<`, `"`, `!` and `'`. */
  lemma CleanValueEscapes(value: string)
    ensures var r := ApplyAll(SimpleValueReplaces, value);
            '>' !in r && '<' !in r && '"' !in r && '!' !in r && '\'' !in r
  {
    BracketsRemoved(value);
    QuotesRemoved(value);
  }

  lemma BracketsRemoved(value: string)
    ensures var r := ApplyAll(SimpleValueReplaces, value);
            '>' !in r && '<' !in r
  {
    RemovedAt(value, 5, '>');
    RemovedAt(value, 6, '<');
  }

  lemma QuotesRemoved(value: string)
    ensures var r := ApplyAll(SimpleValueReplaces, value);
            '"' !in r && '!' !in r && '\'' !in r
  {
    RemovedAt(value, 7, '"');
    RemovedAt(value, 8, '!');
    RemovedAt(value, 9, '\'');
  }

  /** Text with none of `&`, `<`, `>`, `"`, `!`, `'` passes through unchanged. */
  lemma {:induction false} SafeTextUnchanged(value: string)
    requires forall c :: c in "&<>\"!'" ==> c !in value
    ensures ApplyAll(SimpleValueReplaces, value) == value
  {
    var steps := SimpleValueReplaces;
    forall k | 0 <= k <= |steps| ensures ApplyAll(steps[..k], value) == value {
      PrefixUnchanged(value, k);
    }
    assert steps[..|steps|] == steps;
  }

  lemma {:induction false} PrefixUnchanged(value: string, k: nat)
    requires forall c :: c in "&<>\"!'" ==> c !in value
    requires k <= |SimpleValueReplaces|
    ensures ApplyAll(SimpleValueReplaces[..k], value) == value
  {
    var steps := SimpleValueReplaces;
    if k > 0 {
      PrefixUnchanged(value, k - 1);
      assert steps[..k][..k - 1] == steps[..k - 1];
      var rep := steps[k - 1];
      // every pattern holds one of the escaped characters
      if rep.IgnoreCaseReplacer? {
        assert '<' !in value;
        ReplaceIgnoreCaseWithoutOccurrence(value, rep.pattern, rep.replacement);
      } else {
        var i :| 0 <= i < |rep.pattern| && rep.pattern[i] in "&<>\"!'" by {
          assert rep.pattern[0] in "&<>\"!'" || rep.pattern[2] == '>';
          if rep.pattern[0] in "&<>\"!'" { assert 0 < |rep.pattern|; } else { assert 2 < |rep.pattern|; }
        }
        ReplaceWithoutOccurrence(value, rep.pattern, rep.replacement, i);
      }
    }
  }

  /**
   * Ampersands are escaped before any step that writes an entity, so the
   * entities the chain produces are not escaped a second time.
   */
  lemma AmpersandStepFirst()
    ensures SimpleValueReplaces[1] == StrReplacer("&", "&amp;")
    ensures forall j :: 0 <= j < |SimpleValueReplaces| && '&' in SimpleValueReplaces[j].replacement ==> j >= 1
    ensures forall j :: 1 < j < |SimpleValueReplaces| ==> '&' !in SimpleValueReplaces[j].pattern
  {
  }

  /** The board's escaped blank `&#032;` becomes a plain space. */
  lemma EscapedBlank()
    ensures ApplyAll(SimpleValueReplaces, "&#032;") == " "
  {
    var steps := SimpleValueReplaces;
    assert steps[..1] == [steps[0]];
    assert ApplyAll(steps[..1], "&#032;") == " " by {
      assert ApplyAll(steps[..1][..0], "&#032;") == "&#032;";
      assert Replace("&#032;", "&#032;", " ") == " " + Replace("", "&#032;", " ");
    }
    ApplyAllSplit(1, "&#032;");
    SafeTextUnchanged(" ");
    SuffixUnchanged(1, " ");
  }

  /** Applying the chain is applying its first `k` steps, then the rest. */
  lemma {:induction false} ApplyAllSplit(k: nat, value: string)
    requires k <= |SimpleValueReplaces|
    ensures ApplyAll(SimpleValueReplaces, value) == ApplyAll(SimpleValueReplaces[k..], ApplyAll(SimpleValueReplaces[..k], value))
  {
    ApplyAllConcat(SimpleValueReplaces[..k], SimpleValueReplaces[k..], value);
    assert SimpleValueReplaces[..k] + SimpleValueReplaces[k..] == SimpleValueReplaces;
  }

  lemma {:induction false} ApplyAllConcat(a: seq<Replacer>, b: seq<Replacer>, value: string)
    requires WellFormed(a) && WellFormed(b)
    ensures WellFormed(a + b)
    ensures ApplyAll(a + b, value) == ApplyAll(b, ApplyAll(a, value))
    decreases |b|
  {
    if |b| > 0 {
      assert (a + b)[..|a + b| - 1] == a + b[..|b| - 1];
      ApplyAllConcat(a, b[..|b| - 1], value);
    } else {
      assert a + b == a;
    }
  }

  /** Safe text passes through any tail of the chain unchanged. */
  lemma SuffixUnchanged(k: nat, value: string)
    requires k <= |SimpleValueReplaces|
    requires forall c :: c in "&<>\"!'" ==> c !in value
    ensures ApplyAll(SimpleValueReplaces[k..], value) == value
  {
    SafeTextUnchanged(value);
    PrefixUnchanged(value, k);
    ApplyAllSplit(k, value);
  }

  /** One more step of the chain. */
  lemma PrefixStep(k: nat, value: string)
    requires k < |SimpleValueReplaces|
    ensures ApplyAll(SimpleValueReplaces[..k + 1], value) ==
            Apply(SimpleValueReplaces[k], ApplyAll(SimpleValueReplaces[..k], value))
  {
    assert SimpleValueReplaces[..k + 1][..k] == SimpleValueReplaces[..k];
  }

  /** Text without `&`, `!` and `-` passes the first four steps unchanged. */
  lemma FirstStepsUnchanged(v: string)
    requires '&' !in v && '!' !in v && '-' !in v
    ensures ApplyAll(SimpleValueReplaces[..4], v) == v
  {
    assert ApplyAll(SimpleValueReplaces[..0], v) == v;
    ReplaceWithoutOccurrence(v, "&#032;", " ", 0);
    PrefixStep(0, v);
    ReplaceWithoutOccurrence(v, "&", "&amp;", 0);
    PrefixStep(1, v);
    ReplaceWithoutOccurrence(v, "<!--", "&#60;&#33;--", 1);
    PrefixStep(2, v);
    ReplaceWithoutOccurrence(v, "-->", "--&#62;", 0);
    PrefixStep(3, v);
  }

  /** Plain replacers whose patterns start with a character absent from the text leave it unchanged. */
  lemma {:induction false} MissesUnchanged(reps: seq<Replacer>, y: string)
    requires forall j :: 0 <= j < |reps| ==> reps[j].StrReplacer? && |reps[j].pattern| > 0 && reps[j].pattern[0] !in y
    ensures WellFormed(reps) && ApplyAll(reps, y) == y
  {
    if |reps| > 0 {
      var init := reps[..|reps| - 1];
      MissesUnchanged(init, y);
      var last := reps[|reps| - 1];
      ReplaceWithoutOccurrence(y, last.pattern, last.replacement, 0);
    }
  }

  /** Text without `<`, `"`, `!` and `'` passes the last four steps unchanged. */
  lemma LastStepsUnchanged(y: string)
    requires '<' !in y && '"' !in y && '!' !in y && '\'' !in y
    ensures ApplyAll(SimpleValueReplaces[6..], y) == y
  {
    MissesUnchanged(SimpleValueReplaces[6..], y);
  }

  lemma ScriptGuardStep(v: string, w: string)
    requires v == "<SCRIPT>" && w == "&#60;script>"
    ensures ReplaceIgnoreCase(v, "<script", "&#60;script") == w
  {
    assert Lower(v[..7]) == Lower("<script");
    assert ReplaceIgnoreCase(">", "<script", "&#60;script") == ">";
  }

  lemma ScriptGuardApplied(v: string, w: string)
    requires '&' !in v && '!' !in v && '-' !in v
    requires ReplaceIgnoreCase(v, "<script", "&#60;script") == w
    ensures ApplyAll(SimpleValueReplaces[..5], v) == w
  {
    FirstStepsUnchanged(v);
    PrefixStep(4, v);
  }

  lemma BracketEscaped(v: string, w: string, x: string, y: string)
    requires ApplyAll(SimpleValueReplaces[..5], v) == w
    requires w == x + ">" && y == x + "&gt;" && '>' !in x
    ensures ApplyAll(SimpleValueReplaces[..6], v) == y
  {
    ReplaceLastChar(x, '>', "&gt;");
    PrefixStep(5, v);
  }

  lemma ScriptTagSteps(v: string, w: string, x: string, y: string)
    requires '&' !in v && '!' !in v && '-' !in v
    requires ReplaceIgnoreCase(v, "<script", "&#60;script") == w
    requires w == x + ">" && y == x + "&gt;" && '>' !in x
    requires '<' !in y && '"' !in y && '!' !in y && '\'' !in y
    ensures ApplyAll(SimpleValueReplaces, v) == y
  {
    ScriptGuardApplied(v, w);
    BracketEscaped(v, w, x, y);
    LastStepsUnchanged(y);
    ComposeAt6(v, y);
  }

  lemma ComposeAt6(v: string, y: string)
    requires ApplyAll(SimpleValueReplaces[..6], v) == y
    requires ApplyAll(SimpleValueReplaces[6..], y) == y
    ensures ApplyAll(SimpleValueReplaces, v) == y
  {
    ApplyAllSplit(6, v);
  }

  lemma ScriptTagValues(v: string, w: string, x: string, y: string)
    requires v == "<SCRIPT>" && w == "&#60;script>" && x == "&#60;script" && y == "&#60;script&gt;"
    ensures ApplyAll(SimpleValueReplaces, v) == y
  {
    ScriptGuardStep(v, w);
    ScriptLiteralFacts(v, w, x, y);
    ScriptTagSteps(v, w, x, y);
  }

  lemma ScriptLiteralFacts(v: string, w: string, x: string, y: string)
    requires v == "<SCRIPT>" && w == "&#60;script>" && x == "&#60;script" && y == "&#60;script&gt;"
    ensures '&' !in v && '!' !in v && '-' !in v
    ensures w == x + ">" && y == x + "&gt;" && '>' !in x
    ensures '<' !in y && '"' !in y && '!' !in y && '\'' !in y
  {
    ScriptInputFacts(v);
    ScriptJoinFacts(w, x, y);
    ScriptOutputFacts(y);
  }

  lemma ScriptInputFacts(v: string)
    requires v == "<SCRIPT>"
    ensures '&' !in v && '!' !in v && '-' !in v
  {
  }

  lemma ScriptJoinFacts(w: string, x: string, y: string)
    requires w == "&#60;script>" && x == "&#60;script" && y == "&#60;script&gt;"
    ensures w == x + ">" && y == x + "&gt;" && '>' !in x
  {
  }

  lemma ScriptOutputFacts(y: string)
    requires y == "&#60;script&gt;"
    ensures '<' !in y && '"' !in y && '!' !in y && '\'' !in y
  {
  }

  /** The script guard ignores case: "<SCRIPT>" becomes "&#60;script&gt;". */
  lemma ScriptTagEscaped()
    ensures ApplyAll(SimpleValueReplaces, "<SCRIPT>") == "&#60;script&gt;"
  {
    ScriptTagValues("<SCRIPT>", "&#60;script>", "&#60;script", "&#60;script&gt;");
  }
}

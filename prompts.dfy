/**
 * The choice of prompt variant that `create_summary_prompt` and
 * `create_todo_prompt` make from a transcript's file name. The prompt texts
 * themselves are not modelled; a prompt is the variant plus the transcript.
 */
module Prompts {
  import opened Text

  datatype Language = German | English

  /** German unless the lower-cased file name contains `_en.txt` or `_english.txt`;
      `_de`, `_nn` and every other tag give German. */
  function PromptLanguage(filename: string): Language
  {
    var lower := Lower(filename);
    if Contains(lower, "_en.txt") || Contains(lower, "_english.txt") then English else German
  }

  /** In a string whose only dot is the one of a trailing `.txt`, a pattern `w.txt`
      with a dot-free `w` occurs exactly when the part before `.txt` ends with `w`. */
  lemma ContainsBeforeExtension(u: string, w: string)
    requires '.' !in u && '.' !in w
    ensures Contains(u + ".txt", w + ".txt") <==> EndsWith(u, w)
  {
    if EndsWith(u, w) {
      OccursBeforeExtension(u, w);
    }
    if Contains(u + ".txt", w + ".txt") {
      var i :| OccursAt(u + ".txt", w + ".txt", i);
      OccurrenceEndsAtExtension(u, w, i);
    }
  }

  /** `w.txt` occurs at the end of `u.txt` when `u` ends with `w`. */
  lemma OccursBeforeExtension(u: string, w: string)
    requires EndsWith(u, w)
    ensures OccursAt(u + ".txt", w + ".txt", |u| - |w|)
  {
    var s, p, i := u + ".txt", w + ".txt", |u| - |w|;
    assert u[i..] == w;
    assert s[i..] == u[i..] + ".txt";
    assert s[i..i + |p|] == s[i..];
  }

  /** In `u.txt` with a dot-free `u`, an occurrence of `w.txt` with a dot-free `w`
      ends where `u` does, so `u` ends with `w`. */
  lemma OccurrenceEndsAtExtension(u: string, w: string, i: int)
    requires '.' !in u && '.' !in w
    requires OccursAt(u + ".txt", w + ".txt", i)
    ensures i == |u| - |w| && EndsWith(u, w)
  {
    var s, p := u + ".txt", w + ".txt";
    assert s[i + |w|] == p[|w|] == '.';
    assert forall k :: 0 <= k < |u| ==> s[k] == u[k] && u[k] in u;
    assert i + |w| == |u|;
    forall k | 0 <= k < |w| ensures u[i + k] == w[k] {
      assert s[i..i + |p|][k] == s[i + k];
    }
    assert u[|u| - |w|..] == w;
  }

  /** Lower-casing keeps a string free of dots. */
  lemma LowerKeepsDotFree(s: string)
    requires '.' !in s
    ensures '.' !in Lower(s)
  {
  }

  /** Lower-casing leaves the extension `.txt` alone. */
  lemma LowerTxt(base: string)
    ensures Lower(base + ".txt") == Lower(base) + ".txt"
  {
    LowerAppend(base, ".txt");
    LowerNoUpper(".txt");
  }

  /** The language decision looks only at the end of a name whose one dot is that
      of its `.txt` extension. */
  lemma DotFreeNameLanguage(base: string)
    requires '.' !in base
    ensures PromptLanguage(base + ".txt") == English <==> EndsWith(Lower(base), "_en") || EndsWith(Lower(base), "_english")
  {
    LowerTxt(base);
    LowerKeepsDotFree(base);
    EnglishPatterns(Lower(base));
  }

  lemma EnglishPatterns(u: string)
    requires '.' !in u
    ensures Contains(u + ".txt", "_en.txt") <==> EndsWith(u, "_en")
    ensures Contains(u + ".txt", "_english.txt") <==> EndsWith(u, "_english")
  {
    ContainsBeforeExtension(u, "_en");
    ContainsBeforeExtension(u, "_english");
    assert "_en" + ".txt" == "_en.txt";
    assert "_english" + ".txt" == "_english.txt";
  }

  /** For the names the transcription stage writes, `{stem}_{lang}.txt` with no dot
      in the stem or the tag, the language is decided by the tag alone: English
      exactly when the lower-cased name ends in `_en` or `_english` before `.txt`. */
  lemma TaggedNameLanguage(stem: string, lang: string)
    requires '.' !in stem && '.' !in lang
    ensures var u := Lower(stem + "_" + lang);
            PromptLanguage(stem + "_" + lang + ".txt") == English <==> EndsWith(u, "_en") || EndsWith(u, "_english")
  {
    var base := stem + "_" + lang;
    assert forall i :: 0 <= i < |base| ==> base[i] == (if i < |stem| then stem[i] else if i == |stem| then '_' else lang[i - |stem| - 1]);
    DotFreeNameLanguage(base);
  }

  /** Transcripts tagged `en` get the English prompt, whatever their stem holds. */
  lemma EnglishTag(stem: string)
    ensures PromptLanguage(stem + "_en" + ".txt") == English
  {
    var tail := "_en.txt";
    assert stem + "_en" + ".txt" == stem + tail;
    LowerAppend(stem, tail);
    LowerNoUpper(tail);
    var lower := Lower(stem) + tail;
    assert lower[|stem|..|stem| + |tail|] == tail;
    assert OccursAt(lower, tail, |stem|);
  }

  /** A language tag as the transcription script writes it: `_` followed by a
      language code that holds no `_` and no dot. */
  predicate IsTag(tag: string) {
    |tag| >= 1 && tag[0] == '_' && forall k :: 1 <= k < |tag| ==> tag[k] != '_' && tag[k] != '.'
  }

  /** The shape of an English pattern: its only `_` comes first, and its first
      dot is at `d`. */
  predicate PatternShape(p: string, d: int) {
    && 1 <= d < |p| && p[0] == '_' && p[d] == '.'
    && (forall k :: 1 <= k < |p| ==> p[k] != '_')
    && (forall k :: 0 <= k < d ==> p[k] != '.')
  }

  /** An English pattern does not start inside `u` and run into a tag: the tag's
      `_` would have to be a later character of the pattern. */
  lemma NoPatternIntoTag(u: string, tag: string, p: string, d: int, i: int)
    requires IsTag(tag) && PatternShape(p, d)
    requires 0 <= i < |u| < i + |p|
    ensures !OccursAt(u + tag + ".txt", p, i)
  {
    var s := u + tag + ".txt";
    if i + |p| <= |s| {
      var k := |u| - i;
      assert s[i..i + |p|][k] == s[|u|] == tag[0];
      assert p[k] != '_';
    }
  }

  /** An English pattern does not start at the tag, unless the tag is the part of
      the pattern before its dot. */
  lemma NoPatternAtTag(u: string, tag: string, p: string, d: int)
    requires IsTag(tag) && PatternShape(p, d) && tag != p[..d]
    ensures !OccursAt(u + tag + ".txt", p, |u|)
  {
    var s, t := u + tag + ".txt", tag + ".txt";
    var i := |u|;
    if i + |p| <= |s| {
      var w := s[i..i + |p|];
      assert forall m :: 0 <= m < |p| ==> w[m] == t[m];
      if |tag| < d {
        assert w[|tag|] == t[|tag|] == '.';
        assert p[|tag|] != '.';
      } else if |tag| > d {
        assert w[d] == t[d] == tag[d];
      } else {
        assert w[..d] == t[..d] == tag;
      }
    }
  }

  /** An English pattern does not start after the tag's `_`: no later character of
      the tag or of `.txt` is a `_`. */
  lemma NoPatternAfterTag(u: string, tag: string, p: string, d: int, i: int)
    requires IsTag(tag) && PatternShape(p, d)
    requires |u| < i
    ensures !OccursAt(u + tag + ".txt", p, i)
  {
    var s, t := u + tag + ".txt", tag + ".txt";
    if i + |p| <= |s| {
      var j := i - |u|;
      assert s[i..i + |p|][0] == s[i] == t[j];
      if j < |tag| {
        assert t[j] == tag[j];
      } else {
        assert t[j] == ".txt"[j - |tag|];
      }
    }
  }

  /** An English pattern that does not occur in `u` does not occur in
      `u + tag + ".txt"` either, unless the tag is the part of the pattern before
      its dot. */
  lemma NoPatternAcrossTag(u: string, tag: string, p: string, d: int)
    requires IsTag(tag) && PatternShape(p, d) && tag != p[..d]
    requires !Contains(u, p)
    ensures !Contains(u + tag + ".txt", p)
  {
    var s := u + tag + ".txt";
    forall i ensures !OccursAt(s, p, i) {
      if 0 <= i && i + |p| <= |u| {
        assert s[i..i + |p|] == u[i..i + |p|];
        assert !OccursAt(u, p, i);
      } else if 0 <= i < |u| {
        NoPatternIntoTag(u, tag, p, d, i);
      } else if i == |u| {
        NoPatternAtTag(u, tag, p, d);
      } else if |u| < i {
        NoPatternAfterTag(u, tag, p, d, i);
      }
    }
  }

  /** Any tag other than `_en` and `_english`, without capitals, gives German,
      whatever the stem holds, as long as the stem itself (lower-cased) holds
      neither English pattern. */
  lemma OtherTag(stem: string, tag: string)
    requires !Contains(Lower(stem), "_en.txt") && !Contains(Lower(stem), "_english.txt")
    requires IsTag(tag) && NoUpper(tag) && tag != "_en" && tag != "_english"
    ensures PromptLanguage(stem + tag + ".txt") == German
  {
    LowerAppend(stem + tag, ".txt");
    LowerAppend(stem, tag);
    LowerNoUpper(tag);
    LowerNoUpper(".txt");
    assert Lower(stem + tag + ".txt") == Lower(stem) + tag + ".txt";
    var en, english := "_en.txt", "_english.txt";
    assert en[..3] == "_en" && english[..8] == "_english";
    assert PatternShape(en, 3) && PatternShape(english, 8);
    NoPatternAcrossTag(Lower(stem), tag, en, 3);
    NoPatternAcrossTag(Lower(stem), tag, english, 8);
  }

  /** Transcripts tagged `de`, and those tagged `nn` (Norwegian, a common
      misdetection of German), get the German prompt. */
  lemma GermanTags(stem: string)
    requires !Contains(Lower(stem), "_en.txt") && !Contains(Lower(stem), "_english.txt")
    ensures PromptLanguage(stem + "_de" + ".txt") == German
    ensures PromptLanguage(stem + "_nn" + ".txt") == German
  {
    OtherTag(stem, "_de");
    OtherTag(stem, "_nn");
  }

  /** A transcript whose language was not detected (tag `unknown`) gets German. */
  lemma UnknownTag(stem: string)
    requires !Contains(Lower(stem), "_en.txt") && !Contains(Lower(stem), "_english.txt")
    ensures PromptLanguage(stem + "_unknown" + ".txt") == German
  {
    OtherTag(stem, "_unknown");
  }

  /** The two kinds of summary prompt. */
  datatype Kind = ThesisCoaching | TechnicalMeeting

  /** A request to the chat-completion API: the variant of the prompt and the
      transcript it embeds. */
  datatype Prompt =
    | SummaryPrompt(kind: Kind, language: Language, transcript: string)
    | TodoPrompt(language: Language, transcript: string)

  /** A thesis-coaching session when the lower-cased file name contains `thesis-coaching`. */
  function SummaryKind(filename: string): Kind
  {
    if Contains(Lower(filename), "thesis-coaching") then ThesisCoaching else TechnicalMeeting
  }

  /** `create_summary_prompt`. */
  function CreateSummaryPrompt(transcript: string, filename: string): Prompt
  {
    SummaryPrompt(SummaryKind(filename), PromptLanguage(filename), transcript)
  }

  /** `create_todo_prompt`. */
  function CreateTodoPrompt(transcript: string, filename: string): Prompt
  {
    TodoPrompt(PromptLanguage(filename), transcript)
  }

  /** Characters `i .. i + |w|` of `s`, lower-cased, spell `w`. */
  predicate SpellsAt(s: string, w: string, i: int) {
    0 <= i <= |s| - |w| && Lower(s[i..i + |w|]) == w
  }

  /** The thesis test ignores case: a session is thesis coaching exactly when some
      fifteen characters of its name spell `thesis-coaching` in any mix of cases. */
  lemma ThesisCoachingAnyCase(filename: string)
    ensures SummaryKind(filename) == ThesisCoaching <==> exists i :: SpellsAt(filename, "thesis-coaching", i)
  {
    var u := Lower(filename);
    if SummaryKind(filename) == ThesisCoaching {
      var i :| OccursAt(u, "thesis-coaching", i);
      LowerSlice(filename, i, i + 15);
      assert SpellsAt(filename, "thesis-coaching", i);
    }
    if exists i :: SpellsAt(filename, "thesis-coaching", i) {
      var i :| SpellsAt(filename, "thesis-coaching", i);
      LowerSlice(filename, i, i + 15);
      assert OccursAt(u, "thesis-coaching", i);
    }
  }

  /** A name that begins with `Thesis-Coaching` is a thesis-coaching session. */
  lemma ThesisPrefix(rest: string)
    ensures SummaryKind("Thesis-Coaching" + rest) == ThesisCoaching
  {
    var name := "Thesis-Coaching" + rest;
    assert name[0..15] == "Thesis-Coaching";
    var l := Lower(name[0..15]);
    assert l[0] == 't' && l[7] == 'c';
    assert forall i :: 0 <= i < 15 && i != 0 && i != 7 ==> l[i] == name[i];
    assert l == "thesis-coaching";
    assert SpellsAt(name, "thesis-coaching", 0);
    ThesisCoachingAnyCase(name);
  }

  /** The summary prompt's kind does not depend on the language, and both scripts
      pick the language the same way: a thesis session tagged `_en` gets the
      English thesis prompt and the English TODO prompt. */
  lemma EnglishThesisSession(stem: string)
    ensures CreateSummaryPrompt("", "Thesis-Coaching " + stem + "_en" + ".txt").kind == ThesisCoaching
    ensures CreateSummaryPrompt("", "Thesis-Coaching " + stem + "_en" + ".txt").language == English
    ensures CreateTodoPrompt("", "Thesis-Coaching " + stem + "_en" + ".txt").language == English
  {
    ThesisPrefix(" " + stem + "_en" + ".txt");
    assert "Thesis-Coaching" + (" " + stem + "_en" + ".txt") == "Thesis-Coaching " + stem + "_en" + ".txt";
    EnglishTag("Thesis-Coaching " + stem);
  }
}

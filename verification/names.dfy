/**
 `shorten_graph_nodes`' renaming rules: `abbreviate` keeps the lower-cased
 first character and the upper-case characters after it; `process_name`
 cleans a PyMC variable name (text before the first `*`, trimmed), splits it
 on `_` or on whitespace, abbreviates the first part and keeps only the
 recognised parameter words of the rest, written as their symbols.
 */
module NodeNames {
  import opened Wrappers
  import opened Text
  import opened EffectModel

  /** `c.isupper()` on ASCII letters. */
  predicate IsUpper(c: char) {
    'A' <= c <= 'Z'
  }

  /** `c.lower()` on ASCII letters; every other character is left unchanged. */
  function Lower(c: char): (r: char)
    ensures !IsUpper(r)
    ensures !IsUpper(c) ==> r == c
    ensures IsSpace(r) <==> IsSpace(c)
    ensures IsUpper(c) ==> 'a' <= r <= 'z' && r as int - 'a' as int == c as int - 'A' as int
  {
    if IsUpper(c) then (c as int + 32) as char else c
  }

  /** The upper-case characters of `s`, in order. */
  function Uppers(s: string): (r: string)
    ensures |r| <= |s|
    ensures forall k | 0 <= k < |r| :: IsUpper(r[k])
    ensures forall c :: c in r <==> c in s && IsUpper(c)
  {
    if |s| == 0 then ""
    else
      var rest := Uppers(s[1..]);
      assert s == [s[0]] + s[1..];
      if IsUpper(s[0]) then
        assert forall k | 1 <= k < |rest| + 1 :: ([s[0]] + rest)[k] == rest[k - 1];
        [s[0]] + rest
      else rest
  }

  /** `abbreviate`: empty for an empty name, otherwise the lower-cased first character
      followed by the upper-case characters of the rest. */
  function Abbreviate(name: string): (r: string)
    ensures r == "" <==> name == ""
    ensures r != "" ==> r[0] == Lower(name[0]) && !IsUpper(r[0])
    ensures forall k | 1 <= k < |r| :: IsUpper(r[k])
    ensures |r| <= |name|
    ensures r != "" ==> forall c :: c in r[1..] <==> c in name[1..] && IsUpper(c)
  {
    if |name| == 0 then ""
    else
      var rest := Uppers(name[1..]);
      assert forall k | 1 <= k < |rest| + 1 :: ([Lower(name[0])] + rest)[k] == rest[k - 1];
      assert ([Lower(name[0])] + rest)[1..] == rest;
      [Lower(name[0])] + rest
  }

  /** `Uppers` distributes over concatenation: it keeps each capital where it stands. */
  lemma {:induction false} UppersConcat(a: string, b: string)
    ensures Uppers(a + b) == Uppers(a) + Uppers(b)
  {
    if |a| > 0 {
      assert (a + b)[0] == a[0];
      assert (a + b)[1..] == a[1..] + b;
      UppersConcat(a[1..], b);
    } else {
      assert a + b == b;
    }
  }

  /** Extending a name extends its abbreviation by the capitals of the extension. */
  lemma AbbreviateAppend(name: string, tail: string)
    requires name != ""
    ensures Abbreviate(name + tail) == Abbreviate(name) + Uppers(tail)
  {
    assert (name + tail)[0] == name[0];
    assert (name + tail)[1..] == name[1..] + tail;
    UppersConcat(name[1..], tail);
  }

  lemma {:induction false} UppersOfUppers(s: string)
    requires forall k | 0 <= k < |s| :: IsUpper(s[k])
    ensures Uppers(s) == s
  {
    if |s| > 0 {
      UppersOfUppers(s[1..]);
      assert [s[0]] + s[1..] == s;
    }
  }

  /** Abbreviating an abbreviation changes nothing. */
  lemma AbbreviateIdempotent(name: string)
    ensures Abbreviate(Abbreviate(name)) == Abbreviate(name)
  {
    var a := Abbreviate(name);
    if a != "" {
      UppersOfUppers(a[1..]);
      assert [a[0]] + a[1..] == a;
    }
  }

  /** A name without whitespace abbreviates to a word without whitespace. */
  lemma AbbreviateNoSpace(name: string)
    requires NoSpace(name)
    ensures NoSpace(Abbreviate(name))
  {
  }

  /** The recognised parameter words and their display forms; other words are dropped. */
  function Symbol(part: string): (r: Option<string>)
    ensures r.Some? <==> part in {"alpha", "beta", "sigma", "obs", "data"}
    ensures part == "alpha" ==> r == Some("\U{03B1}")
    ensures part == "beta" ==> r == Some("\U{03B2}*")
    ensures part == "sigma" ==> r == Some("\U{03C3}")
    ensures part == "obs" || part == "data" ==> r == Some(part)
    ensures r.Some? ==> r.value != "" && NoSpace(r.value)
  {
    if part == "alpha" then Some("\U{03B1}")
    else if part == "beta" then Some("\U{03B2}*")
    else if part == "sigma" then Some("\U{03C3}")
    else if part == "obs" || part == "data" then Some(part)
    else None
  }

  /** The display forms of the recognised words among `parts`, in order. */
  function Suffixes(parts: seq<string>): (r: seq<string>)
    ensures |r| <= |parts|
    ensures forall i | 0 <= i < |r| :: r[i] in {"\U{03B1}", "\U{03B2}*", "\U{03C3}", "obs", "data"}
    ensures forall i | 0 <= i < |r| :: r[i] != "" && NoSpace(r[i])
  {
    if |parts| == 0 then []
    else
      var rest := Suffixes(parts[1..]);
      match Symbol(parts[0])
      case Some(x) =>
        assert forall i | 1 <= i < |rest| + 1 :: ([x] + rest)[i] == rest[i - 1];
        [x] + rest
      case None => rest
  }

  /** A single part contributes its symbol when it has one and nothing otherwise. */
  lemma SuffixesSingle(part: string)
    ensures Suffixes([part]) == if Symbol(part).Some? then [Symbol(part).value] else []
  {
    assert [part][1..] == [];
  }

  /** `Suffixes` works part by part: the suffixes of a concatenation are the
      concatenation of the suffixes, in the same order. */
  lemma {:induction false} SuffixesConcat(a: seq<string>, b: seq<string>)
    ensures Suffixes(a + b) == Suffixes(a) + Suffixes(b)
  {
    if |a| > 0 {
      assert (a + b)[0] == a[0];
      assert (a + b)[1..] == a[1..] + b;
      SuffixesConcat(a[1..], b);
    } else {
      assert a + b == b;
    }
  }

  /** The text before the first `*`, trimmed: it holds no `*`, neither starts nor ends with
      whitespace, and is empty exactly when that text is blank. */
  function Clean(name: string): (r: string)
    ensures '*' !in r
    ensures r == [] || (!IsSpace(r[0]) && !IsSpace(r[|r| - 1]))
    ensures r == [] <==> AllSpace(SplitOn(name, '*')[0])
    ensures '*' !in name ==> r == Strip(name)
  {
    var head := SplitOn(name, '*')[0];
    assert '*' !in name ==> head == name by {
      if '*' !in name {
        SplitOnNoSeparator(name, '*');
      }
    }
    var r := Strip(head);
    assert '*' !in r by {
      var i := LeadingSpaces(head);
      assert forall k | 0 <= k < |r| :: r[k] == head[i + k];
    }
    r
  }

  /** The text before the first `*`, trimmed, whatever follows it. */
  lemma CleanAtFirstStar(a: string, b: string)
    requires '*' !in a
    ensures Clean(a + "*" + b) == Strip(a)
  {
    assert a + "*" + b == a + ['*'] + b;
    SplitOnFirst(a, '*', b);
  }

  /** The parts of a cleaned name: split on `_` when it has one, on whitespace otherwise.
      Underscore parts join back to the name; whitespace parts are its words. */
  function Parts(clean: string): (r: seq<string>)
    ensures '_' in clean ==> r == SplitOn(clean, '_')
    ensures '_' !in clean ==> r == SplitWords(clean)
    ensures '_' in clean ==> Join(r, "_") == clean && forall i | 0 <= i < |r| :: '_' !in r[i]
    ensures '_' !in clean ==> Concat(r) == NonSpace(clean)
    ensures '_' !in clean ==> forall i | 0 <= i < |r| :: r[i] != "" && NoSpace(r[i])
    ensures r == [] <==> '_' !in clean && AllSpace(clean)
  {
    if '_' in clean then
      SplitJoin(clean, '_');
      SplitOn(clean, '_')
    else
      SplitWordsEmpty(clean);
      SplitWords(clean)
  }

  /** `process_name`: a name with no parts comes back unchanged; otherwise, when the
      abbreviation is a word, the shortened name splits back into the abbreviation followed
      by the symbols of the recognised parameter words. */
  function ProcessName(name: string): (r: string)
    ensures Parts(Clean(name)) == [] ==> r == name
    ensures var parts := Parts(Clean(name));
      parts != [] ==> r == Join([Abbreviate(parts[0])] + Suffixes(parts[1..]), " ")
    ensures var parts := Parts(Clean(name));
      parts != [] && Abbreviate(parts[0]) != "" && NoSpace(Abbreviate(parts[0])) ==>
        SplitWords(r) == [Abbreviate(parts[0])] + Suffixes(parts[1..])
  {
    var parts := Parts(Clean(name));
    if parts == [] then name
    else
      var comps := [Abbreviate(parts[0])] + Suffixes(parts[1..]);
      assert Abbreviate(parts[0]) != "" && NoSpace(Abbreviate(parts[0])) ==>
        SplitWords(Join(comps, " ")) == comps by {
        if Abbreviate(parts[0]) != "" && NoSpace(Abbreviate(parts[0])) {
          forall i | 0 <= i < |comps| ensures comps[i] != "" && NoSpace(comps[i]) {
            if i > 0 {
              assert comps[i] == Suffixes(parts[1..])[i - 1];
            }
          }
          JoinSplitWords(comps);
        }
      }
      Join(comps, " ")
  }

  /** The early return happens exactly when the text before the first `*` is blank. */
  lemma NoPartsIff(name: string)
    ensures Parts(Clean(name)) == [] <==> AllSpace(SplitOn(name, '*')[0])
  {
    var clean := Clean(name);
    if '_' !in clean {
      SplitWordsEmpty(clean);
      if clean != [] {
        assert !IsSpace(clean[0]);
      }
    }
  }

  /** A blank name before the first `*` comes back unchanged. */
  lemma BlankNameUnchanged(name: string)
    requires AllSpace(SplitOn(name, '*')[0])
    ensures ProcessName(name) == name
  {
    NoPartsIff(name);
  }

  /** The converse fails: `"a"` has a part and still comes back unchanged. */
  lemma SingleLetterUnchanged()
    ensures Parts(Clean("a")) == ["a"] && ProcessName("a") == "a"
  {
    SplitOnNoSeparator("a", '*');
    StripTrimmed("a");
    SplitWordsWord("a");
  }

  // ---------------------------------------------------------------------
  // The effect model's variable names, shortened
  // ---------------------------------------------------------------------

  /** A node name the shortening handles as one word. */
  predicate PlainNode(v: string) {
    v != "" && NoSpace(v) && '_' !in v && '*' !in v
  }

  /** The parts of a plain node followed by one space-separated parameter word. */
  lemma PartsOfSpaced(v: string, word: string)
    requires PlainNode(v) && PlainNode(word)
    ensures Parts(v + " " + word) == [v, word]
  {
    var core := v + " " + word;
    assert '_' !in core;
    SplitWordsCons(v, word);
    SplitWordsWord(word);
  }

  /** One recognised word after the abbreviation joins as the abbreviation, a space and its symbol. */
  lemma JoinSymbol(a: string, word: string, sym: string)
    requires Symbol(word) == Some(sym)
    ensures Join([a] + Suffixes([word]), " ") == a + " " + sym
  {
    assert [word][1..] == [];
    assert Suffixes([word]) == [sym];
    assert [a] + [sym] == [a, sym];
    assert [a, sym][1..] == [sym];
  }

  /** A plain node, a space and a recognised word shorten to the abbreviation, a space and
      the word's symbol. */
  lemma ShortenSpaced(v: string, word: string, sym: string)
    requires PlainNode(v) && PlainNode(word) && Symbol(word) == Some(sym)
    ensures ProcessName(v + " " + word) == Abbreviate(v) + " " + sym
  {
    var core := v + " " + word;
    assert core[0] == v[0] && core[|core| - 1] == word[|word| - 1];
    assert '*' !in core;
    SplitOnNoSeparator(core, '*');
    StripTrimmed(core);
    PartsOfSpaced(v, word);
    assert [v, word][1..] == [word];
    JoinSymbol(Abbreviate(v), word, sym);
  }

  /** The same with ` *` and anything after it appended: the cut happens at the `*`. */
  lemma ShortenSpacedStar(v: string, word: string, sym: string, rest: string)
    requires PlainNode(v) && PlainNode(word) && Symbol(word) == Some(sym)
    ensures ProcessName(v + " " + word + " *" + rest) == Abbreviate(v) + " " + sym
  {
    CleanSpacedStar(v, word, rest);
    PartsOfSpaced(v, word);
    assert [v, word][1..] == [word];
    JoinSymbol(Abbreviate(v), word, sym);
  }

  /** The text before ` *` is the spaced name itself. */
  lemma CleanSpacedStar(v: string, word: string, rest: string)
    requires PlainNode(v) && PlainNode(word)
    ensures Clean(v + " " + word + " *" + rest) == v + " " + word
  {
    var core := v + " " + word;
    var before := core + " ";
    var name := v + " " + word + " *" + rest;
    assert name == before + ['*'] + rest;
    assert '*' !in before;
    SplitOnFirst(before, '*', rest);
    assert Strip(before) == core by {
      assert before[0] == v[0];
      assert LeadingSpaces(before) == 0;
      assert before[..|before| - 1] == core;
      assert core[|core| - 1] == word[|word| - 1];
      assert KeptLength(before) == |core|;
      assert before[0..|core|] == core;
    }
  }

  /** A plain node joined to a recognised word by `_` shortens to the abbreviation, a space
      and the word's symbol. */
  lemma ShortenUnderscored(v: string, word: string, sym: string)
    requires PlainNode(v) && PlainNode(word) && Symbol(word) == Some(sym)
    ensures ProcessName(v + "_" + word) == Abbreviate(v) + " " + sym
  {
    var name := v + "_" + word;
    UnderscoredClean(v, word);
    UnderscoredParts(v, word);
    assert [v, word][1..] == [word];
    JoinSymbol(Abbreviate(v), word, sym);
  }

  /** Two plain words joined by `_` split back into the two words. */
  lemma UnderscoredParts(v: string, word: string)
    requires PlainNode(v) && PlainNode(word)
    ensures Parts(v + "_" + word) == [v, word]
  {
    var name := v + "_" + word;
    assert name[|v|] == '_';
    SplitOnFirst(v, '_', word);
    SplitOnNoSeparator(word, '_');
  }

  /** Two plain words joined by `_` are already clean. */
  lemma UnderscoredClean(v: string, word: string)
    requires PlainNode(v) && PlainNode(word)
    ensures Clean(v + "_" + word) == v + "_" + word
  {
    var name := v + "_" + word;
    assert '*' !in name;
    SplitOnNoSeparator(name, '*');
    assert name[0] == v[0] && name[|name| - 1] == word[|word| - 1];
    StripTrimmed(name);
  }

  /** The parameter words are plain words the symbol table recognises. */
  lemma ParameterWordPlain(k: NameKind)
    ensures PlainNode(ParameterWord(k)) && Symbol(ParameterWord(k)).Some?
  {
  }

  /** The shortened intercept, noise-scale, likelihood and data-container names: the
      abbreviated node, a space and the parameter's symbol (`α`, `σ`, `obs`, `data`). */
  lemma ShortenVariableName(v: string, k: NameKind)
    requires PlainNode(v)
    ensures Symbol(ParameterWord(k)).Some?
    ensures ProcessName(VariableName(v, k)) == Abbreviate(v) + " " + Symbol(ParameterWord(k)).value
  {
    var w := ParameterWord(k);
    ParameterWordPlain(k);
    assert v + ([Separator(k)] + w) == v + [Separator(k)] + w;
    if k == Data {
      ShortenUnderscored(v, w, Symbol(w).value);
    } else {
      ShortenSpaced(v, w, Symbol(w).value);
    }
  }

  lemma BetaNameShape(v: string, list: string)
    ensures v + " beta * (" + list + ")" == v + " " + "beta" + " *" + (" (" + list + ")")
  {
    var rest := " (" + list + ")";
    assert " beta * (" == " " + "beta" + " *" + " (";
    assert v + " beta * (" + list + ")" == v + " " + "beta" + " *" + rest;
  }

  /** The shortened coefficient-vector name: everything from the `*` on is cut. */
  lemma ShortenBetaName(v: string, preds: seq<string>)
    requires PlainNode(v)
    ensures ProcessName(BetaName(v, preds)) == Abbreviate(v) + " " + "\U{03B2}*"
  {
    var list := PredecessorList(preds);
    var rest := " (" + list + ")";
    ShortenSpacedStar(v, "beta", "\U{03B2}*", rest);
    BetaNameShape(v, list);
  }
}

/**
 * The INI-style configuration reader: a fold over the lines of the file that keeps the
 * current section and a section -> key -> value map, and the feature-name membership test.
 */
module Config {
  import opened Results
  import opened Text

  type Section = map<string, string>
  type Settings = map<string, Section>

  /** What one line of the file means. */
  datatype Line =
    | Ignored                          // empty after trimming, or a '#' comment
    | Header(name: string)             // "[name]"
    | Entry(key: string, value: string)
    | Malformed                        // splits on '=' into a number of tokens other than 2

  /**
   * The line trimmed, then: empty or starting with '#' is ignored; starting with '[' and
   * ending with ']' names a section; otherwise it must split on '=' into exactly two
   * tokens, the trimmed key and the trimmed value.
   */
  function Classify(raw: string): Line
  {
    var line := Trim(raw);
    if line == [] || line[0] == '#' then Ignored
    else if line[0] == '[' && line[|line| - 1] == ']' then Header(line[1..|line| - 1])
    else
      EntryOf(Tokens(line, '='))
  }

  /** A line that is neither blank, a comment nor a header: an entry when it has exactly two tokens. */
  function EntryOf(tokens: seq<string>): Line
  {
    if |tokens| != 2 then Malformed else Entry(Trim(tokens[0]), Trim(tokens[1]))
  }

  /** The reader's state between lines: the settings so far and the current section. */
  datatype Reader = Reader(settings: Settings, section: string)

  /** `config[name]`: the section, or a fresh empty one when it is absent. */
  function SectionOf(settings: Settings, name: string): Section
  {
    if name in settings then settings[name] else map[]
  }

  /** The effect of one line on the reader. */
  function Step(r: Reader, raw: string): Reader
  {
    match Classify(raw)
    case Ignored => r
    case Malformed => r
    case Header(name) => Reader(r.settings[name := map[]], name)
    case Entry(key, value) =>
      Reader(r.settings[r.section := SectionOf(r.settings, r.section)[key := value]], r.section)
  }

  /** The reader after every line of `lines`, in order. */
  function Run(r: Reader, lines: seq<string>): Reader
    decreases |lines|
  {
    if lines == [] then r else Step(Run(r, lines[..|lines| - 1]), lines[|lines| - 1])
  }

  /**
   * `readConfig`: `file` is the content of the configuration file as lines, or None when
   * it cannot be opened. The settings passed in are updated, not replaced; the current
   * section starts as "".
   */
  method ReadConfig(file: Option<seq<string>>, config: Settings) returns (ok: bool, result: Settings)
    ensures ok == file.Some?
    ensures !ok ==> result == config
    ensures ok ==> result == Run(Reader(config, ""), file.value).settings
  {
    if file.None? {
      return false, config;
    }
    var lines := file.value;
    result := config;
    var currentSection := "";
    var i := 0;
    assert lines[..i] == [];
    while i < |lines|
      invariant 0 <= i <= |lines|
      invariant Reader(result, currentSection) == Run(Reader(config, ""), lines[..i])
    {
      assert lines[..i + 1][..i] == lines[..i];
      result, currentSection := ReadLine(result, currentSection, lines[i]);
      i := i + 1;
    }
    assert lines[..i] == lines;
    return true, result;
  }

  /** The body of the reading loop: one line's effect on the settings and the current section. */
  method ReadLine(settings: Settings, section: string, raw: string) returns (settings': Settings, section': string)
    ensures Reader(settings', section') == Step(Reader(settings, section), raw)
  {
    settings', section' := settings, section;
    var line := Trim(raw);
    if line == [] || line[0] == '#' {
    } else if line[0] == '[' && line[|line| - 1] == ']' {
      section' := line[1..|line| - 1];
      settings' := settings'[section' := map[]];
    } else {
      var tokens := Split(line, '=');
      if |tokens| == 2 {
        var key := Trim(tokens[0]);
        var value := Trim(tokens[1]);
        var current := if section' in settings' then settings'[section'] else map[];
        settings' := settings'[section' := current[key := value]];
      }
    }
  }

  /** Reading two pieces of a file one after the other is reading the whole file. */
  lemma {:induction false} RunAppend(r: Reader, a: seq<string>, b: seq<string>)
    ensures Run(r, a + b) == Run(Run(r, a), b)
    decreases |b|
  {
    if b == [] {
      assert a + b == a;
    } else {
      var b' := b[..|b| - 1];
      RunAppend(r, a, b');
      assert (a + b)[..|a + b| - 1] == a + b';
    }
  }

  /** No line removes a section: the sections present before reading are still present. */
  lemma {:induction false} SectionsKept(r: Reader, lines: seq<string>)
    ensures r.settings.Keys <= Run(r, lines).settings.Keys
    decreases |lines|
  {
    if lines != [] {
      SectionsKept(r, lines[..|lines| - 1]);
    }
  }

  /** Reading one more line applies that line's step to the reader. */
  lemma RunSnoc(r: Reader, lines: seq<string>, raw: string)
    ensures Run(r, lines + [raw]) == Step(Run(r, lines), raw)
  {
    assert (lines + [raw])[..|lines|] == lines;
  }

  /** Blank lines and comment lines change nothing. */
  lemma BlankAndCommentLinesIgnored(r: Reader, lines: seq<string>, raw: string)
    requires Trim(raw) == [] || Trim(raw)[0] == '#'
    ensures Run(r, lines + [raw]) == Run(r, lines)
  {
    RunSnoc(r, lines, raw);
  }

  /** "[name]" with blanks around it is read as the header of section `name`. */
  lemma HeaderLine(pad: string, name: string, pad': string)
    requires AllSpaces(pad) && AllSpaces(pad')
    ensures Classify(pad + "[" + name + "]" + pad') == Header(name)
  {
    var line := "[" + name + "]";
    assert pad + "[" + name + "]" + pad' == pad + line + pad';
    assert Trimmed(line) by { assert line[0] == '[' && line[|line| - 1] == ']'; }
    TrimUnique(pad, line, pad');
    assert line[1..|line| - 1] == name;
    ClassifyHeader(pad + line + pad', line);
  }

  lemma ClassifyHeader(raw: string, line: string)
    requires Trim(raw) == line && |line| >= 2 && line[0] == '[' && line[|line| - 1] == ']'
    ensures Classify(raw) == Header(line[1..|line| - 1])
  {
  }

  /**
   * A header line "[name]", with any blanks around it, makes `name` the current section and
   * resets that section to empty, discarding what an earlier header of the same name
   * collected; every other section is left as it was.
   */
  lemma HeaderResetsSection(r: Reader, lines: seq<string>, pad: string, name: string, pad': string)
    requires AllSpaces(pad) && AllSpaces(pad')
    ensures var before := Run(r, lines);
      var after := Run(r, lines + [pad + "[" + name + "]" + pad']);
      && after.section == name
      && after.settings.Keys == before.settings.Keys + {name}
      && after.settings[name] == map[]
      && forall s :: s in before.settings && s != name ==> after.settings[s] == before.settings[s]
  {
    var raw := pad + "[" + name + "]" + pad';
    HeaderLine(pad, name, pad');
    RunSnoc(r, lines, raw);
    HeaderStep(Run(r, lines), raw, name);
  }

  lemma HeaderStep(b: Reader, raw: string, name: string)
    requires Classify(raw) == Header(name)
    ensures var after := Step(b, raw);
      && after.section == name
      && after.settings.Keys == b.settings.Keys + {name}
      && after.settings[name] == map[]
      && forall s :: s in b.settings && s != name ==> after.settings[s] == b.settings[s]
  {
  }

  /** A line without '=' that is not a header, a comment or blank is skipped. */
  lemma LineWithoutEqualsSkipped(r: Reader, lines: seq<string>, raw: string)
    requires '=' !in raw
    requires Classify(raw) != Ignored && !Classify(raw).Header?
    ensures Run(r, lines + [raw]) == Run(r, lines)
  {
    var line := Trim(raw);
    assert '=' !in line by {
      forall k | 0 <= k < |line| ensures line[k] != '=' {
        assert line[k] == raw[LeadingSpaces(raw) + k];
      }
    }
    IndexOfAt(line, '=', |line|);
    TokensUnfold(line, '=');
    assert line[..|line|] == line;
    assert Tokens(line, '=') == [line];
    RunSnoc(r, lines, raw);
  }

  /** The two tokens of "key = value" split on '=' are "key " and " value". */
  lemma EntryTokens(key: string, value: string)
    requires '=' !in key && '=' !in value && value != []
    ensures Tokens(key + " = " + value, '=') == [key + " ", " " + value]
  {
    var left, right := key + " ", " " + value;
    assert '=' !in left && '=' !in right;
    TokensJoin([left, right], '=');
    assert Join([left, right], '=') == key + " = " + value;
  }

  /** "key = value" is read as an entry with that key and that value. */
  lemma EntryLine(key: string, value: string)
    requires key != [] && Trimmed(key) && key[0] != '#' && key[0] != '[' && '=' !in key
    requires value != [] && Trimmed(value) && '=' !in value
    ensures Classify(key + " = " + value) == Entry(key, value)
  {
    var raw := key + " = " + value;
    assert raw[0] == key[0] && raw[|raw| - 1] == value[|value| - 1];
    TrimTrimmed(raw);
    ClassifyOther(raw, raw);
    EntryTokens(key, value);
    TrimTrailingPad(key, " ");
    TrimLeadingPad(" ", value);
  }

  lemma ClassifyOther(raw: string, line: string)
    requires Trim(raw) == line && line != [] && line[0] != '#' && line[0] != '['
    ensures Classify(raw) == EntryOf(Tokens(line, '='))
  {
  }

  /**
   * A line "key = value" stores `value` under `key` in the current section, replacing
   * any earlier value: the entry written out is the entry read back.
   */
  lemma EntryStored(r: Reader, lines: seq<string>, key: string, value: string)
    requires key != [] && Trimmed(key) && key[0] != '#' && key[0] != '[' && '=' !in key
    requires value != [] && Trimmed(value) && '=' !in value
    ensures var before := Run(r, lines);
      var after := Run(r, lines + [key + " = " + value]);
      && after.section == before.section
      && after.settings.Keys == before.settings.Keys + {before.section}
      && after.settings[after.section] == SectionOf(before.settings, before.section)[key := value]
      && forall s :: s in before.settings && s != before.section ==> after.settings[s] == before.settings[s]
  {
    var raw := key + " = " + value;
    EntryLine(key, value);
    RunSnoc(r, lines, raw);
    EntryStep(Run(r, lines), raw, key, value);
  }

  lemma EntryStep(b: Reader, raw: string, key: string, value: string)
    requires Classify(raw) == Entry(key, value)
    ensures var after := Step(b, raw);
      && after.section == b.section
      && after.settings.Keys == b.settings.Keys + {b.section}
      && after.settings[after.section] == SectionOf(b.settings, b.section)[key := value]
      && forall s :: s in b.settings && s != b.section ==> after.settings[s] == b.settings[s]
  {
  }

  /**
   * A second '=' at the very end of a line produces no third token, so such a line still
   * counts as an entry: "a=b=" stores "b" under "a".
   */
  lemma TrailingEqualsStillAnEntry(key: string, value: string)
    requires key != [] && Trimmed(key) && key[0] != '#' && key[0] != '[' && '=' !in key
    requires Trimmed(value) && '=' !in value
    ensures Classify(key + "=" + value + "=") == Entry(key, value)
  {
    var raw := key + "=" + value + "=";
    assert raw[0] == key[0] && raw[|raw| - 1] == '=';
    TrimTrimmed(raw);
    ClassifyOther(raw, raw);
    TrailingEqualsTokens(key, value);
    TrimTrimmed(key);
    TrimTrimmed(value);
  }

  /** "key=value=" splits on '=' into the key and the value: the empty piece after the last '=' is dropped. */
  lemma TrailingEqualsTokens(key: string, value: string)
    requires '=' !in key && '=' !in value
    ensures Tokens(key + "=" + value + "=", '=') == [key, value]
  {
    var s := key + "=" + value + "=";
    assert s[..|key|] == key;
    IndexOfAt(s, '=', |key|);
    TokensUnfold(s, '=');
    var rest := value + "=";
    assert s[|key| + 1..] == rest;
    assert rest[..|value|] == value;
    IndexOfAt(rest, '=', |value|);
    TokensUnfold(rest, '=');
    assert rest[|value| + 1..] == [];
  }

  /** `checkExist`: whether `feature` is one of the configured feature names. */
  function CheckExist(features: set<string>, feature: string): (found: bool)
    ensures found <==> feature in features
  {
    feature in features
  }
}

/** The `.env` configuration of the admin server: `readConfig` parses the
    file line by line into a key -> value object, `saveConfig` writes the
    fixed template, `updateConfig` merges a partial update over what is on
    disk, `getConfig` projects the four settings, and `isConfigValid` checks
    that the three GitHub settings are present.

    The file is the field `file` of `EnvFile` (`None` when it does not
    exist). Whether reading or writing it throws is an input to the
    operation that does so. */
module ConfigManager {
  import opened Common
  import opened Js

  /** The object `readConfig` builds. */
  type Config = map<string, string>

  /** One `key=value` line that `readConfig` keeps. */
  datatype Entry = Entry(key: string, value: string)

  /** The four settings `getConfig` returns; `port` is the stored text, or
      the number 3030 when none is stored. */
  datatype Settings = Settings(owner: Option<string>, repo: Option<string>, token: Option<string>, port: JsValue)

  /** The fields of an `updateConfig` request, as they arrive. */
  datatype Updates = Updates(owner: JsValue, repo: JsValue, token: JsValue, port: JsValue)

  const DefaultPort: int := 3030

  // ---------------------------------------------------------------------------
  // Parsing one line
  // ---------------------------------------------------------------------------

  predicate IsQuote(c: char) {
    c == '"' || c == '\''
  }

  /** `value.replace(/^["']|["']$/g, '')`: one leading quote and one trailing
      quote go, each on its own; a lone quote goes entirely. */
  function StripQuotes(v: string): (r: string)
    ensures |r| <= |v|
  {
    var u := if v != [] && IsQuote(v[0]) then v[1..] else v;
    if u != [] && IsQuote(u[|u| - 1]) then u[..|u| - 1] else u
  }

  /** The body of `readConfig`'s per-line callback: skip blank lines, lines
      starting with '#' and lines without '='; otherwise the key is the
      trimmed text before the first '=' and the value the trimmed text after
      it with its quotes stripped, and the pair counts only when both are
      non-empty. */
  function ParseLine(raw: string): (e: Option<Entry>)
    ensures e.Some? ==> e.value.key != "" && e.value.value != ""
  {
    var line := Trim(raw);
    if line == "" || StartsWith(line, "#") then None else Assignment(line)
  }

  /** A trimmed line that is neither blank nor a comment: nothing without an
      '=', and otherwise the split at the first '='. */
  function Assignment(line: string): Option<Entry> {
    match IndexOf(line, '=')
    case None => None
    case Some(i) => Setting(Trim(line[..i]), StripQuotes(Trim(line[i + 1..])))
  }

  /** A line whose first '=' is at `i` splits there. */
  lemma AssignmentAt(line: string, i: nat)
    requires IndexOf(line, '=') == Some(i)
    ensures Assignment(line) == Setting(Trim(line[..i]), StripQuotes(Trim(line[i + 1..])))
  {
  }

  /** Storing a pair only when key and value are both non-empty is the step
      of its setting. */
  lemma SettingStep(c: Config, key: string, value: string)
    ensures Step(c, Setting(key, value)) == if key != "" && value != "" then c[key := value] else c
  {
  }

  /** A pair counts only when both the key and the value are non-empty. */
  function Setting(key: string, value: string): Option<Entry> {
    if key != "" && value != "" then Some(Entry(key, value)) else None
  }

  /** What each line of the file contributes, in order. */
  function ParseLines(lines: seq<string>): (es: seq<Option<Entry>>)
    ensures |es| == |lines|
  {
    if lines == [] then [] else [ParseLine(lines[0])] + ParseLines(lines[1..])
  }

  /** One call of the `forEach` callback: a kept line sets its key. */
  function Step(c: Config, e: Option<Entry>): Config {
    match e
    case None => c
    case Some(e) => c[e.key := e.value]
  }

  /** The object the `forEach` leaves behind, starting from `c`: the lines
      apply in order, so a later line for a key wins. */
  function Apply(c: Config, es: seq<Option<Entry>>): Config
    decreases |es|
  {
    if es == [] then c else Apply(Step(c, es[0]), es[1..])
  }

  /** `readConfig()` on the text of an existing file. */
  function ParseConfig(text: string): Config {
    Apply(map[], ParseLines(Split(text, '\n')))
  }

  /** `readConfig()`: `null` for a missing file or a read that throws. */
  function ReadResult(file: Option<string>, readFails: bool): Option<Config> {
    if file.None? || readFails then None else Some(ParseConfig(file.value))
  }

  // ---------------------------------------------------------------------------
  // What parsing a line does
  // ---------------------------------------------------------------------------

  /** Blank lines, comments and lines without '=' are skipped. */
  lemma ParseLineSkips(raw: string)
    requires Trim(raw) == "" || StartsWith(Trim(raw), "#") || '=' !in raw
    ensures ParseLine(raw) == None
  {
    if Trim(raw) != "" && !StartsWith(Trim(raw), "#") {
      TrimInfix(raw);
      assert '=' !in Trim(raw);
    }
  }

  /** `Trim(s)` is an infix of `s`. */
  lemma TrimInfix(s: string)
    ensures exists i, j :: 0 <= i <= j <= |s| && Trim(s) == s[i..j]
  {
    var t := TrimStart(s);
    var i := |s| - |t|;
    assert Trim(s) == t[..|Trim(s)|] == s[i..i + |Trim(s)|];
  }

  /** A line that starts with '#' is a comment, whatever follows. */
  lemma CommentSkipped(raw: string)
    requires raw != [] && raw[0] == '#'
    ensures ParseLine(raw) == None
  {
    assert TrimStart(raw) == raw;
    var t := Trim(raw);
    assert t == TrimEnd(raw);
    assert t[0] == '#';
    assert StartsWith(t, "#");
  }

  /** A value that neither starts nor ends with a quote keeps all its
      characters. */
  lemma StripQuotesPlain(v: string)
    requires v == [] || (!IsQuote(v[0]) && !IsQuote(v[|v| - 1]))
    ensures StripQuotes(v) == v
  {
  }

  /** One quote on each side goes, the two need not match, and quotes
      further in stay. */
  lemma StripQuotesAround(q1: char, v: string, q2: char)
    requires IsQuote(q1) && IsQuote(q2)
    ensures StripQuotes([q1] + v + [q2]) == v
  {
    var s := [q1] + v + [q2];
    assert s[1..] == v + [q2];
    assert (v + [q2])[..|v|] == v;
  }

  /** A setting value that reads back as written: non-empty, on one line,
      without surrounding whitespace or quotes. */
  predicate PlainValue(v: string) {
    v != "" && '\n' !in v && !IsWhitespace(v[0]) && !IsWhitespace(v[|v| - 1])
    && !IsQuote(v[0]) && !IsQuote(v[|v| - 1])
  }

  /** A key that reads back as written: non-empty, without '=', surrounding
      whitespace or a leading '#'. */
  predicate PlainKey(k: string) {
    k != "" && '=' !in k && '\n' !in k && k[0] != '#' && !IsWhitespace(k[0]) && !IsWhitespace(k[|k| - 1])
  }

  /** A trimmed right-hand side with no quote at either end. */
  predicate PlainRhs(rhs: string) {
    rhs == [] || (!IsWhitespace(rhs[0]) && !IsWhitespace(rhs[|rhs| - 1]))
  }

  /** `key=rhs` splits at the '=' after the key, whatever `rhs` holds
      (more '=' included); the value is `rhs` with its quotes stripped, and
      the line counts when that is non-empty. */
  lemma ParseKeyLine(key: string, rhs: string)
    requires PlainKey(key) && rhs != [] && PlainRhs(rhs)
    ensures ParseLine(key + "=" + rhs)
         == if StripQuotes(rhs) != "" then Some(Entry(key, StripQuotes(rhs))) else None
  {
    var line := key + "=" + rhs;
    assert line[0] == key[0] && line[|line| - 1] == rhs[|rhs| - 1];
    TrimUnchanged(line);
    assert !StartsWith(line, "#");
    IndexOfAfter(key, '=', rhs);
    assert line[..|key|] == key && line[|key| + 1..] == rhs;
    TrimUnchanged(key);
    TrimUnchanged(rhs);
  }

  /** `key=value` parses to that key and value; the value may itself
      contain '=', since only the first one splits. */
  lemma ParseAssignment(key: string, value: string)
    requires PlainKey(key) && PlainValue(value)
    ensures ParseLine(key + "=" + value) == Some(Entry(key, value))
  {
    ParseKeyLine(key, value);
    StripQuotesPlain(value);
  }

  /** `key="value"` (or with any mix of the two quote characters) parses to
      the value without its quotes. */
  lemma ParseQuotedAssignment(key: string, q1: char, value: string, q2: char)
    requires PlainKey(key) && value != "" && IsQuote(q1) && IsQuote(q2)
    ensures ParseLine(key + "=" + [q1] + value + [q2]) == Some(Entry(key, value))
  {
    var quoted := [q1] + value + [q2];
    assert key + "=" + [q1] + value + [q2] == key + "=" + quoted;
    ParseKeyLine(key, quoted);
    StripQuotesAround(q1, value, q2);
  }

  // ---------------------------------------------------------------------------
  // What parsing a file does
  // ---------------------------------------------------------------------------

  /** The line read as `e` sets `key`. */
  predicate Sets(e: Option<Entry>, key: string) {
    e.Some? && e.value.key == key
  }

  /** The line at `i` is the last one that sets `key`. */
  predicate LastSetting(es: seq<Option<Entry>>, i: int, key: string) {
    0 <= i < |es| && Sets(es[i], key) && forall j :: i < j < |es| ==> !Sets(es[j], key)
  }

  /** After the lines, a key is present exactly when it was before or some
      line sets it; its value is the one the last such line gives, and a
      key no line sets keeps its value. */
  lemma {:induction false} ApplyLastWins(c: Config, es: seq<Option<Entry>>, key: string)
    ensures key in Apply(c, es) <==> key in c || exists i :: 0 <= i < |es| && Sets(es[i], key)
    ensures forall i :: LastSetting(es, i, key) ==> Apply(c, es)[key] == es[i].value.value
    ensures key in c && (forall i :: 0 <= i < |es| ==> !Sets(es[i], key)) ==> Apply(c, es)[key] == c[key]
    decreases |es|
  {
    if es != [] {
      var rest := es[1..];
      ApplyLastWins(Step(c, es[0]), rest, key);
      forall i | LastSetting(es, i, key)
        ensures Apply(c, es)[key] == es[i].value.value
      {
        if i > 0 {
          assert rest[i - 1] == es[i];
          assert LastSetting(rest, i - 1, key);
        } else {
          forall j | 0 <= j < |rest| ensures !Sets(rest[j], key) {
            assert rest[j] == es[j + 1];
          }
        }
      }
      if exists i :: 0 <= i < |rest| && Sets(rest[i], key) {
        var i :| 0 <= i < |rest| && Sets(rest[i], key);
        assert es[i + 1] == rest[i];
      }
      if key in c && forall i :: 0 <= i < |es| ==> !Sets(es[i], key) {
        assert !Sets(es[0], key);
        forall j | 0 <= j < |rest| ensures !Sets(rest[j], key) {
          assert rest[j] == es[j + 1];
        }
      }
    }
  }

  /** Reading two blocks of lines is reading the second from where the
      first left off. */
  lemma {:induction false} ApplyAppend(c: Config, a: seq<Option<Entry>>, b: seq<Option<Entry>>)
    ensures Apply(c, a + b) == Apply(Apply(c, a), b)
    decreases |a|
  {
    if a == [] {
      assert a + b == b;
    } else {
      assert (a + b)[0] == a[0];
      assert (a + b)[1..] == a[1..] + b;
      ApplyAppend(Step(c, a[0]), a[1..], b);
    }
  }

  /** Every value `readConfig` stores is non-empty. */
  lemma {:induction false} ApplyNonEmpty(c: Config, lines: seq<string>)
    requires forall k :: k in c ==> c[k] != ""
    ensures forall k :: k in Apply(c, ParseLines(lines)) ==> Apply(c, ParseLines(lines))[k] != ""
    decreases |lines|
  {
    if lines != [] {
      ApplyNonEmpty(Step(c, ParseLine(lines[0])), lines[1..]);
    }
  }

  /** Parsing lines one block at a time. */
  lemma {:induction false} ParseLinesAppend(a: seq<string>, b: seq<string>)
    ensures ParseLines(a + b) == ParseLines(a) + ParseLines(b)
    decreases |a|
  {
    if a == [] {
      assert a + b == b;
    } else {
      assert (a + b)[1..] == a[1..] + b;
      ParseLinesAppend(a[1..], b);
    }
  }

  // ---------------------------------------------------------------------------
  // The file `saveConfig` writes
  // ---------------------------------------------------------------------------

  /** The lines of `saveConfig`'s template; the text ends with a newline,
      hence the empty last line. */
  function SavedLines(owner: string, repo: string, token: string, port: string): (ls: seq<string>)
    ensures |ls| == 15
  {
    [ "# GitHub 配置",
      "# 此文件包含敏感信息，请勿上传到 Git",
      "",
      "# GitHub 用户名",
      "GITHUB_OWNER=" + owner,
      "",
      "# 仓库名称",
      "GITHUB_REPO=" + repo,
      "",
      "# Personal Access Token",
      "GITHUB_TOKEN=" + token,
      "",
      "# 服务器端口",
      "PORT=" + port,
      "" ]
  }

  /** `saveConfig(owner, repo, token, port)`'s text: each argument rendered
      as a template literal renders it, and an absent port defaulting to
      3030. */
  function SavedText(owner: JsValue, repo: JsValue, token: JsValue, port: JsValue): string {
    var p := if port.Undefined? then Num(DefaultPort) else port;
    Join(SavedLines(ToJsString(owner), ToJsString(repo), ToJsString(token), ToJsString(p)), "\n")
  }

  /** The object that reading back a saved file gives. */
  function SavedConfig(owner: string, repo: string, token: string, port: string): Config {
    map["GITHUB_OWNER" := owner, "GITHUB_REPO" := repo, "GITHUB_TOKEN" := token, "PORT" := port]
  }

  /** A single line contributes what it parses to. */
  lemma ParseOne(raw: string)
    ensures ParseLines([raw]) == [ParseLine(raw)]
  {
    assert [raw][1..] == [];
  }

  /** The first line contributes what it parses to, ahead of the rest. */
  lemma ParseLinesCons(x: string, rest: seq<string>)
    ensures ParseLines([x] + rest) == [ParseLine(x)] + ParseLines(rest)
  {
    assert ([x] + rest)[1..] == rest;
  }

  /** The `forEach` handles the first line, then the rest. */
  lemma ApplyFirstLine(c: Config, x: string, rest: seq<string>)
    ensures Apply(c, ParseLines([x] + rest)) == Apply(Step(c, ParseLine(x)), ParseLines(rest))
  {
    ParseLinesCons(x, rest);
    var es := [ParseLine(x)] + ParseLines(rest);
    assert es[0] == ParseLine(x) && es[1..] == ParseLines(rest);
  }

  /** The object after the callback has seen line `k` is on its way to the
      same result. */
  lemma ReadStep(c: Config, next: Config, lines: seq<string>, k: nat, result: Config)
    requires k < |lines| && next == Step(c, ParseLine(lines[k]))
    requires Apply(c, ParseLines(lines[k..])) == result
    ensures Apply(next, ParseLines(lines[k + 1..])) == result
  {
    assert lines[k..] == [lines[k]] + lines[k + 1..];
    ApplyFirstLine(c, lines[k], lines[k + 1..]);
  }

  /** Three lines contribute what each parses to. */
  lemma ParseThree(a: string, b: string, c: string)
    ensures ParseLines([a, b, c]) == [ParseLine(a), ParseLine(b), ParseLine(c)]
  {
    assert [a, b, c] == [a] + ([b] + ([c] + []));
    ParseLinesCons(c, []);
    ParseLinesCons(b, [c]);
    ParseLinesCons(a, [b, c]);
  }

  /** The two header comments contribute nothing. */
  lemma HeaderSkipped(c1: string, c2: string)
    requires c1 != [] && c1[0] == '#' && c2 != [] && c2[0] == '#'
    ensures ParseLines([c1, c2]) == [None, None]
  {
    ParseOne(c1);
    ParseOne(c2);
    assert [c1, c2] == [c1] + [c2];
    ParseLinesAppend([c1], [c2]);
    CommentSkipped(c1);
    CommentSkipped(c2);
  }

  /** One setting line, preceded by the blank line and the comment above it
      in the template, contributes only that setting. */
  lemma SettingBlock(comment: string, key: string, value: string)
    requires comment != [] && comment[0] == '#' && PlainKey(key) && PlainValue(value)
    ensures ParseLines(["", comment, key + "=" + value]) == [None, None, Some(Entry(key, value))]
  {
    ParseThree("", comment, key + "=" + value);
    ParseLineSkips("");
    CommentSkipped(comment);
    ParseAssignment(key, value);
  }

  /** Every line of the template is free of newlines when the values are. */
  lemma SavedLinesSingle(owner: string, repo: string, token: string, port: string)
    requires '\n' !in owner && '\n' !in repo && '\n' !in token && '\n' !in port
    ensures forall i :: 0 <= i < 15 ==> '\n' !in SavedLines(owner, repo, token, port)[i]
  {
    var ls := SavedLines(owner, repo, token, port);
    assert ls[4] == "GITHUB_OWNER=" + owner;
    assert ls[7] == "GITHUB_REPO=" + repo;
    assert ls[10] == "GITHUB_TOKEN=" + token;
    assert ls[13] == "PORT=" + port;
  }

  /** The template is the header, four setting blocks and a last empty line. */
  lemma SavedLinesBlocks(owner: string, repo: string, token: string, port: string)
    ensures SavedLines(owner, repo, token, port)
         == ["# GitHub 配置", "# 此文件包含敏感信息，请勿上传到 Git"]
          + ["", "# GitHub 用户名", "GITHUB_OWNER=" + owner]
          + ["", "# 仓库名称", "GITHUB_REPO=" + repo]
          + ["", "# Personal Access Token", "GITHUB_TOKEN=" + token]
          + ["", "# 服务器端口", "PORT=" + port]
          + [""]
  {
  }

  /** Parsing six blocks of lines one after the other. */
  lemma ParseSixBlocks(h: seq<string>, b1: seq<string>, b2: seq<string>, b3: seq<string>, b4: seq<string>, e: seq<string>)
    ensures ParseLines(h + b1 + b2 + b3 + b4 + e)
         == ParseLines(h) + ParseLines(b1) + ParseLines(b2) + ParseLines(b3) + ParseLines(b4) + ParseLines(e)
  {
    ParseLinesAppend(h + b1 + b2 + b3 + b4, e);
    ParseLinesAppend(h + b1 + b2 + b3, b4);
    ParseLinesAppend(h + b1 + b2, b3);
    ParseLinesAppend(h + b1, b2);
    ParseLinesAppend(h, b1);
  }

  /** The four keys of the template read back as written. */
  lemma TemplateKeysPlain()
    ensures PlainKey("GITHUB_OWNER") && "GITHUB_OWNER" + "=" == "GITHUB_OWNER="
    ensures PlainKey("GITHUB_REPO") && "GITHUB_REPO" + "=" == "GITHUB_REPO="
    ensures PlainKey("GITHUB_TOKEN") && "GITHUB_TOKEN" + "=" == "GITHUB_TOKEN="
    ensures PlainKey("PORT") && "PORT" + "=" == "PORT="
  {
  }

  /** A setting block of the template, its line written as `prefix + value`. */
  lemma TemplateSetting(comment: string, key: string, prefix: string, value: string)
    requires comment != [] && comment[0] == '#' && PlainKey(key) && PlainValue(value)
    requires prefix == key + "="
    ensures ParseLines(["", comment, prefix + value]) == [None, None, Some(Entry(key, value))]
  {
    SettingBlock(comment, key, value);
  }

  /** What each line of the template contributes. */
  lemma SavedEntries(owner: string, repo: string, token: string, port: string)
    requires PlainValue(owner) && PlainValue(repo) && PlainValue(token) && PlainValue(port)
    ensures ParseLines(SavedLines(owner, repo, token, port))
         == [None, None]
          + [None, None, Some(Entry("GITHUB_OWNER", owner))]
          + [None, None, Some(Entry("GITHUB_REPO", repo))]
          + [None, None, Some(Entry("GITHUB_TOKEN", token))]
          + [None, None, Some(Entry("PORT", port))]
          + [None]
  {
    var h := ["# GitHub 配置", "# 此文件包含敏感信息，请勿上传到 Git"];
    var b1 := ["", "# GitHub 用户名", "GITHUB_OWNER=" + owner];
    var b2 := ["", "# 仓库名称", "GITHUB_REPO=" + repo];
    var b3 := ["", "# Personal Access Token", "GITHUB_TOKEN=" + token];
    var b4 := ["", "# 服务器端口", "PORT=" + port];
    SavedLinesBlocks(owner, repo, token, port);
    ParseSixBlocks(h, b1, b2, b3, b4, [""]);
    assert ParseLines(h) == [None, None] by {
      HeaderSkipped(h[0], h[1]);
    }
    TemplateKeysPlain();
    TemplateSetting("# GitHub 用户名", "GITHUB_OWNER", "GITHUB_OWNER=", owner);
    TemplateSetting("# 仓库名称", "GITHUB_REPO", "GITHUB_REPO=", repo);
    TemplateSetting("# Personal Access Token", "GITHUB_TOKEN", "GITHUB_TOKEN=", token);
    TemplateSetting("# 服务器端口", "PORT", "PORT=", port);
    assert ParseLines([""]) == [None] by {
      ParseOne("");
      ParseLineSkips("");
    }
  }

  /** Two skipped lines leave the object as it was. */
  lemma SkippedBlock(c: Config)
    ensures Apply(c, [None, None]) == c
  {
    var es: seq<Option<Entry>> := [None, None];
    assert es[1..] == [None];
  }

  /** A blank line and a comment, then a setting: the setting is stored. */
  lemma SettingApplied(c: Config, key: string, value: string)
    ensures Apply(c, [None, None, Some(Entry(key, value))]) == c[key := value]
  {
    ApplyThree(c, None, None, Some(Entry(key, value)));
  }

  /** Three lines apply one after the other. */
  lemma ApplyThree(c: Config, x: Option<Entry>, y: Option<Entry>, z: Option<Entry>)
    ensures Apply(c, [x, y, z]) == Step(Step(Step(c, x), y), z)
  {
    assert [x, y, z] == [x] + [y] + [z];
    ApplyAppend(c, [x] + [y], [z]);
    ApplyAppend(c, [x], [y]);
    assert [x][1..] == [] && [y][1..] == [] && [z][1..] == [];
  }

  /** Reading back the file `saveConfig` wrote gives exactly the four
      settings it was given, provided each reads back as written. */
  lemma SaveThenParse(owner: string, repo: string, token: string, port: string)
    requires PlainValue(owner) && PlainValue(repo) && PlainValue(token) && PlainValue(port)
    ensures ParseConfig(Join(SavedLines(owner, repo, token, port), "\n")) == SavedConfig(owner, repo, token, port)
  {
    var ls := SavedLines(owner, repo, token, port);
    SavedLinesSingle(owner, repo, token, port);
    SplitJoin(ls, '\n');
    SavedEntries(owner, repo, token, port);
    var c0: Config := map[];
    var c1 := c0["GITHUB_OWNER" := owner];
    var c2 := c1["GITHUB_REPO" := repo];
    var c3 := c2["GITHUB_TOKEN" := token];
    var b1 := [None, None, Some(Entry("GITHUB_OWNER", owner))];
    var b2 := [None, None, Some(Entry("GITHUB_REPO", repo))];
    var b3 := [None, None, Some(Entry("GITHUB_TOKEN", token))];
    var b4 := [None, None, Some(Entry("PORT", port))];
    ApplyAppend(c0, [None, None] + b1 + b2 + b3 + b4, [None]);
    ApplyAppend(c0, [None, None] + b1 + b2 + b3, b4);
    ApplyAppend(c0, [None, None] + b1 + b2, b3);
    ApplyAppend(c0, [None, None] + b1, b2);
    ApplyAppend(c0, [None, None], b1);
    SkippedBlock(c0);
    SettingApplied(c0, "GITHUB_OWNER", owner);
    SettingApplied(c1, "GITHUB_REPO", repo);
    SettingApplied(c2, "GITHUB_TOKEN", token);
    SettingApplied(c3, "PORT", port);
    assert Apply(c3["PORT" := port], [None]) == c3["PORT" := port];
  }

  // ---------------------------------------------------------------------------
  // getConfig, isConfigValid, updateConfig on what readConfig returned
  // ---------------------------------------------------------------------------

  /** `config[key]`: the stored text, or `undefined`. */
  function Lookup(c: Config, key: string): JsValue {
    if key in c then Str(c[key]) else Undefined
  }

  function Field(c: Config, key: string): Option<string> {
    if key in c then Some(c[key]) else None
  }

  /** `getConfig()` given what `readConfig()` returned: `null` for `null`
      (an existing file without settings still gives an object), and the
      port falls back to 3030. */
  function SettingsOf(c: Option<Config>): (s: Option<Settings>)
    ensures s.None? <==> c.None?
    ensures s.Some? ==> s.value.port == (if "PORT" in c.value && c.value["PORT"] != "" then Str(c.value["PORT"]) else Num(DefaultPort))
    ensures s.Some? ==> s.value.owner == Field(c.value, "GITHUB_OWNER") && s.value.repo == Field(c.value, "GITHUB_REPO")
                        && s.value.token == Field(c.value, "GITHUB_TOKEN")
  {
    match c
    case None => None
    case Some(m) =>
      Some(Settings(Field(m, "GITHUB_OWNER"), Field(m, "GITHUB_REPO"), Field(m, "GITHUB_TOKEN"),
                    if Truthy(Lookup(m, "PORT")) then Lookup(m, "PORT") else Num(DefaultPort)))
  }

  predicate Present(v: Option<string>) {
    v.Some? && v.value != ""
  }

  /** `isConfigValid()` given what `getConfig()` returned. */
  predicate SettingsValid(s: Option<Settings>) {
    s.Some? && Present(s.value.owner) && Present(s.value.repo) && Present(s.value.token)
  }

  /** A setting as a JavaScript value: `undefined` when it is missing. */
  function SettingValue(v: Option<string>): JsValue {
    if v.Some? then Str(v.value) else Undefined
  }

  /** What `isConfigValid()` returns given what `getConfig()` returned: the
      value of `config && config.owner && config.repo && config.token`, that
      is `null` without a configuration, the first missing or empty setting
      among owner, repo and token, and otherwise the token itself. */
  function ValidityValue(s: Option<Settings>): (v: JsValue)
    ensures Truthy(v) <==> SettingsValid(s)
    ensures s.None? ==> v == Null
    ensures SettingsValid(s) ==> v == Str(s.value.token.value)
    ensures s.Some? && !SettingsValid(s) ==> v == Undefined || v == Str("")
  {
    if s.None? then Null
    else if !Truthy(SettingValue(s.value.owner)) then SettingValue(s.value.owner)
    else if !Truthy(SettingValue(s.value.repo)) then SettingValue(s.value.repo)
    else SettingValue(s.value.token)
  }

  /** The configuration is valid exactly when the file was read and sets
      all three GitHub keys; the port plays no part. */
  lemma ValidIffKeysSet(c: Option<Config>)
    requires c.Some? ==> forall k :: k in c.value ==> c.value[k] != ""
    ensures SettingsValid(SettingsOf(c)) <==>
      c.Some? && "GITHUB_OWNER" in c.value && "GITHUB_REPO" in c.value && "GITHUB_TOKEN" in c.value
  {
  }

  /** `a || b` on two values. */
  function Or(a: JsValue, b: JsValue): JsValue {
    if Truthy(a) then a else b
  }

  /** The arguments `updateConfig` passes to `saveConfig`: each truthy
      update, otherwise what the file holds (`undefined` when it holds
      nothing), and for the port 3030 as the last resort. */
  function Merged(u: Updates, current: Option<Config>): (args: Updates)
    ensures Truthy(u.owner) ==> args.owner == u.owner
    ensures !Truthy(u.owner) && current.Some? && "GITHUB_OWNER" in current.value ==>
      args.owner == Str(current.value["GITHUB_OWNER"])
    ensures !Truthy(u.owner) && (current.None? || "GITHUB_OWNER" !in current.value) ==> args.owner == Undefined
    ensures Truthy(u.repo) ==> args.repo == u.repo
    ensures !Truthy(u.repo) && current.Some? && "GITHUB_REPO" in current.value ==>
      args.repo == Str(current.value["GITHUB_REPO"])
    ensures !Truthy(u.repo) && (current.None? || "GITHUB_REPO" !in current.value) ==> args.repo == Undefined
    ensures Truthy(u.token) ==> args.token == u.token
    ensures !Truthy(u.token) && current.Some? && "GITHUB_TOKEN" in current.value ==>
      args.token == Str(current.value["GITHUB_TOKEN"])
    ensures !Truthy(u.token) && (current.None? || "GITHUB_TOKEN" !in current.value) ==> args.token == Undefined
    ensures Truthy(u.port) ==> args.port == u.port
    ensures !Truthy(u.port) && current.Some? && "PORT" in current.value && current.value["PORT"] != "" ==>
      args.port == Str(current.value["PORT"])
    ensures !Truthy(u.port) && (current.None? || "PORT" !in current.value) ==> args.port == Num(DefaultPort)
    ensures Truthy(args.port)
  {
    var c := if current.Some? then current.value else map[];
    Updates(Or(u.owner, Lookup(c, "GITHUB_OWNER")), Or(u.repo, Lookup(c, "GITHUB_REPO")),
            Or(u.token, Lookup(c, "GITHUB_TOKEN")), Or(u.port, Or(Lookup(c, "PORT"), Num(DefaultPort))))
  }

  /** After `saveConfig` with values that read back as written, the file is
      a valid configuration whose settings are those values. */
  lemma SaveThenGet(owner: string, repo: string, token: string, port: JsValue)
    requires PlainValue(owner) && PlainValue(repo) && PlainValue(token)
    requires PlainValue(ToJsString(if port.Undefined? then Num(DefaultPort) else port))
    ensures var p := ToJsString(if port.Undefined? then Num(DefaultPort) else port);
      && SettingsOf(ReadResult(Some(SavedText(Str(owner), Str(repo), Str(token), port)), false))
         == Some(Settings(Some(owner), Some(repo), Some(token), Str(p)))
      && SettingsValid(SettingsOf(ReadResult(Some(SavedText(Str(owner), Str(repo), Str(token), port)), false)))
  {
    var p := ToJsString(if port.Undefined? then Num(DefaultPort) else port);
    SaveThenParse(owner, repo, token, p);
  }

  /** The default port is written as "3030", which reads back as written. */
  lemma DefaultPortPlain()
    ensures ToJsString(Num(DefaultPort)) == "3030" && PlainValue("3030")
  {
    assert NatToString(3030) == NatToString(303) + ['0'];
    assert NatToString(303) == NatToString(30) + ['3'];
    assert NatToString(30) == NatToString(3) + ['0'];
  }

  // ---------------------------------------------------------------------------
  // The configuration file
  // ---------------------------------------------------------------------------

  class EnvFile {
    /** The text of `.env`, or `None` when the file does not exist. */
    var file: Option<string>

    constructor(file: Option<string>)
      ensures this.file == file
    {
      this.file := file;
    }

    /** `hasConfig()` */
    function HasConfig(): (b: bool)
      reads this
      ensures b <==> file.Some?
    {
      file.Some?
    }

    /** `readConfig()`: the file's lines in order, each handed to the
        `forEach` callback. */
    method ReadConfig(readFails: bool) returns (c: Option<Config>)
      ensures c == ReadResult(file, readFails)
    {
      if !HasConfig() || readFails {
        return None;
      }
      var content := file.value;
      var lines := Split(content, '\n');
      ghost var result := ParseConfig(content);
      var config: Config := map[];
      var k := 0;
      assert lines[k..] == lines;
      while k < |lines|
        invariant 0 <= k <= |lines|
        invariant Apply(config, ParseLines(lines[k..])) == result
      {
        var next := ReadLine(config, lines[k]);
        ReadStep(config, next, lines, k, result);
        config := next;
        k := k + 1;
      }
      assert lines[k..] == [];
      c := Some(config);
    }

    /** The `forEach` callback of `readConfig`: a trimmed line that is not
        blank, not a comment and holds '=' is split at its first '='; the
        pair is stored when key and value are both non-empty. */
    static method ReadLine(config: Config, raw: string) returns (next: Config)
      ensures next == Step(config, ParseLine(raw))
    {
      next := config;
      var line := Trim(raw);
      if line != "" && !StartsWith(line, "#") {
        next := StoreAssignment(config, line);
      }
    }

    /** The callback's split of a line at its first '=', and the store of
        the pair when key and value are both non-empty. */
    static method StoreAssignment(config: Config, line: string) returns (next: Config)
      ensures next == Step(config, Assignment(line))
    {
      next := config;
      var equalIndex := IndexOf(line, '=');
      if equalIndex.Some? {
        var key := Trim(line[..equalIndex.value]);
        var value := Trim(line[equalIndex.value + 1..]);
        value := StripQuotes(value);
        AssignmentAt(line, equalIndex.value);
        if key != "" && value != "" {
          next := config[key := value];
        }
        SettingStep(config, key, value);
      }
    }

    /** `saveConfig(owner, repo, token, port)`: writes the template and
        answers whether the write went through; a failed write leaves the
        file as it was. */
    method SaveConfig(owner: JsValue, repo: JsValue, token: JsValue, port: JsValue, writeFails: bool)
      returns (ok: bool)
      modifies this
      ensures ok == !writeFails
      ensures file == if writeFails then old(file) else Some(SavedText(owner, repo, token, port))
    {
      if writeFails {
        return false;
      }
      file := Some(SavedText(owner, repo, token, port));
      ok := true;
    }

    /** `updateConfig(updates)`: read, merge, save. */
    method UpdateConfig(u: Updates, readFails: bool, writeFails: bool) returns (ok: bool)
      modifies this
      ensures ok == !writeFails
      ensures var args := Merged(u, ReadResult(old(file), readFails));
        file == if writeFails then old(file) else Some(SavedText(args.owner, args.repo, args.token, args.port))
    {
      var current := ReadConfig(readFails);
      var args := Merged(u, current);
      ok := SaveConfig(args.owner, args.repo, args.token, args.port, writeFails);
    }

    /** `getConfig()` */
    method GetConfig(readFails: bool) returns (s: Option<Settings>)
      ensures s == SettingsOf(ReadResult(file, readFails))
    {
      var config := ReadConfig(readFails);
      s := SettingsOf(config);
    }

    /** `isConfigValid()`: the value of the `&&` chain, which is the token
        when the configuration is valid. */
    method IsConfigValid(readFails: bool) returns (v: JsValue)
      ensures v == ValidityValue(SettingsOf(ReadResult(file, readFails)))
    {
      var config := GetConfig(readFails);
      v := ValidityValue(config);
    }
  }

  /** After `updateConfig` with values that read back as written, reading
      the configuration gives each update that was given, and otherwise the
      setting that was on file. A port that is not a string (a number in
      the request, or the fallback 3030) is written in decimal and reads
      back as that text; with no port anywhere the port reads "3030". */
  lemma UpdateThenGet(u: Updates, current: Option<Config>)
    requires var a := Merged(u, current);
      a.owner.Str? && a.repo.Str? && a.token.Str?
      && PlainValue(a.owner.s) && PlainValue(a.repo.s) && PlainValue(a.token.s) && PlainValue(ToJsString(a.port))
    ensures var a := Merged(u, current);
      SettingsOf(ReadResult(Some(SavedText(a.owner, a.repo, a.token, a.port)), false))
      == Some(Settings(Some(a.owner.s), Some(a.repo.s), Some(a.token.s), Str(ToJsString(a.port))))
    ensures var a := Merged(u, current);
      a.port.Str? ==> SettingsOf(ReadResult(Some(SavedText(a.owner, a.repo, a.token, a.port)), false)).value.port == a.port
    ensures var a := Merged(u, current);
      !Truthy(u.port) && (current.None? || "PORT" !in current.value) ==>
      SettingsOf(ReadResult(Some(SavedText(a.owner, a.repo, a.token, a.port)), false)).value.port == Str("3030")
  {
    var a := Merged(u, current);
    assert Truthy(a.port);
    SaveThenGet(a.owner.s, a.repo.s, a.token.s, a.port);
    DefaultPortPlain();
  }
}

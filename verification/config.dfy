/** Configuration loading (`Config` in src/utils/config.py): the loaded
    document merged with the built-in defaults, and the path of the example
    configuration file. */
module Config {
  import opened Common

  /** One default prize as the default configuration spells it. */
  function PrizeJson(name: string, weight: int, image: string): Json
  {
    JObj(map["name" := JStr(name), "weight" := JNum(weight), "image" := JStr(image)])
  }

  /** The default `prizes` entry: three prizes weighted 10, 30 and 60. */
  function DefaultPrizes(): Json
  {
    JArr([ PrizeJson("一等奖", 10, "resources/images/prize1.png"),
           PrizeJson("二等奖", 30, "resources/images/prize2.png"),
           PrizeJson("三等奖", 60, "resources/images/prize3.png") ])
  }

  /** The default `settings` entries. */
  function DefaultSettings(): map<string, Json>
  {
    map["animation_speed" := JNum(10), "sound_enabled" := JBool(true), "language" := JStr("zh_CN")]
  }

  function DefaultConfig(): Json
  {
    JObj(map["prizes" := DefaultPrizes(), "settings" := JObj(DefaultSettings())])
  }

  /** Python's `needle in hay` on strings: `needle` occurs as a substring. */
  predicate Substring(needle: string, hay: string)
  {
    exists i :: 0 <= i <= |hay| && OccursAt(needle, hay, i)
  }

  predicate OccursAt(needle: string, hay: string, i: nat)
  {
    i + |needle| <= |hay| && hay[i..i + |needle|] == needle
  }

  /** The entries of `given` together with each default entry whose key `given` lacks. */
  function FillMissing(given: map<string, Json>, defaults: map<string, Json>): (m: map<string, Json>)
    ensures m.Keys == given.Keys + defaults.Keys
    ensures forall k :: k in given ==> m[k] == given[k]
    ensures forall k :: k in defaults && k !in given ==> m[k] == defaults[k]
  {
    defaults + given
  }

  /** The loop over the default settings keys applied to a loaded `settings`
      value. An object gets each missing key added. Any other value survives
      only when every key is already "in" it (a list holding the key as a
      string, a string holding it as a substring); otherwise the assignment
      `settings[key] = value` raises (`None`). */
  function MergeSettings(s: Json): (r: Option<Json>)
    ensures s.JObj? ==> r == Some(JObj(FillMissing(s.fields, DefaultSettings())))
    ensures s.JArr? ==> (r.Some? <==> forall k :: k in DefaultSettings() ==> JStr(k) in s.items)
    ensures s.JStr? ==> (r.Some? <==> forall k :: k in DefaultSettings() ==> Substring(k, s.s))
    ensures !s.JObj? && r.Some? ==> r.value == s
    ensures s.JNull? || s.JBool? || s.JNum? ==> r.None?
  {
    match s
    case JObj(f) => Some(JObj(FillMissing(f, DefaultSettings())))
    case JArr(items) =>
      if forall k :: k in DefaultSettings() ==> JStr(k) in items then Some(s) else None
    case JStr(t) =>
      if forall k :: k in DefaultSettings() ==> Substring(k, t) then Some(s) else None
    case _ => None
  }

  /** The file holds an object whose settings, if any, merge without raising. */
  predicate Mergeable(file: FileState<Json>)
  {
    && file.Parsed? && file.value.JObj?
    && ("settings" in file.value.fields ==> MergeSettings(file.value.fields["settings"]).Some?)
  }

  /** `Config.load`: a missing, unreadable or non-object file, or one whose
      settings make the merge raise, yields the default configuration.
      Otherwise the loaded object gets the default `prizes` when it has none
      and the default settings (all of them, or the missing keys) without
      losing anything it had. */
  function Load(file: FileState<Json>): (c: Json)
    ensures !Mergeable(file) ==> c == DefaultConfig()
    ensures c.JObj? && "prizes" in c.fields && "settings" in c.fields
    ensures Mergeable(file) ==>
              var m := file.value.fields;
              && c.fields.Keys == m.Keys + {"prizes", "settings"}
              && (forall k :: k in m && k != "settings" ==> c.fields[k] == m[k])
              && ("prizes" !in m ==> c.fields["prizes"] == DefaultPrizes())
              && ("settings" !in m ==> c.fields["settings"] == JObj(DefaultSettings()))
              && ("settings" in m ==> Some(c.fields["settings"]) == MergeSettings(m["settings"]))
  {
    match file
    case Parsed(JObj(m)) =>
      var prizes := if "prizes" in m then m["prizes"] else DefaultPrizes();
      if "settings" !in m then
        JObj(m["prizes" := prizes]["settings" := JObj(DefaultSettings())])
      else
        (match MergeSettings(m["settings"])
         case Some(s) => JObj(m["prizes" := prizes]["settings" := s])
         case None => DefaultConfig())
    case _ => DefaultConfig()
  }

  /** A settings object keeps what it had and gains exactly the missing defaults. */
  lemma SettingsNeverOverwritten(m: map<string, Json>, s: map<string, Json>)
    requires "settings" in m && m["settings"] == JObj(s)
    ensures var c := Load(Parsed(JObj(m))).fields["settings"];
            && c.JObj?
            && c.fields.Keys == s.Keys + DefaultSettings().Keys
            && (forall k :: k in s ==> c.fields[k] == s[k])
            && (forall k :: k in DefaultSettings() && k !in s ==> c.fields[k] == DefaultSettings()[k])
  {
  }

  /** Loading what a load produced changes nothing: the merge adds only what is
      missing, and the second time nothing is. */
  lemma LoadIdempotent(file: FileState<Json>)
    ensures Load(Parsed(Load(file))) == Load(file)
  {
    var c := Load(file);
    var s := c.fields["settings"];
    var r := MergeSettings(s);
    assert r == Some(s) by {
      if s.JObj? {
        assert FillMissing(s.fields, DefaultSettings()) == s.fields;
      }
    }
    assert c.fields["prizes" := c.fields["prizes"]]["settings" := s] == c.fields;
  }

  /** The document `load` writes: a missing file is created holding the
      default configuration; an existing file, readable or not, is left alone.
      Reading the written file gives what `load` returned. */
  function LoadWrite(file: FileState<Json>): (w: Option<Json>)
    ensures w.Some? <==> file.Absent?
    ensures w.Some? ==> Load(Parsed(w.value)) == Load(file)
  {
    if file.Absent? then
      LoadIdempotent(file);
      Some(DefaultConfig())
    else None
  }

  // -------------------------------------------------------- example path

  const ExampleConfigName := "example_config.json"

  /** The position of the last `/` in `p`, or -1 when there is none. */
  function LastSlash(p: string): (i: int)
    ensures -1 <= i < |p|
    ensures i >= 0 ==> p[i] == '/'
    ensures forall j :: i < j < |p| ==> p[j] != '/'
  {
    if p == [] then -1
    else if p[|p| - 1] == '/' then |p| - 1
    else LastSlash(p[..|p| - 1])
  }

  /** Every character is `/`. */
  predicate AllSlashes(s: string)
  {
    forall j :: 0 <= j < |s| ==> s[j] == '/'
  }

  /** `s.rstrip('/')`. */
  function StripTrailingSlashes(s: string): (t: string)
    ensures |t| <= |s| && t == s[..|t|]
    ensures t == [] || t[|t| - 1] != '/'
    ensures AllSlashes(s[|t|..])
  {
    if s != [] && s[|s| - 1] == '/' then
      var t := StripTrailingSlashes(s[..|s| - 1]);
      assert s[|t|..] == s[..|s| - 1][|t|..] + ['/'];
      t
    else s
  }

  /** `os.path.dirname` (POSIX): everything before the last `/`, with trailing
      slashes removed unless the head is slashes only. */
  function Dirname(p: string): string
  {
    var head := p[..LastSlash(p) + 1];
    if head != [] && !AllSlashes(head) then StripTrailingSlashes(head) else head
  }

  /** `os.path.join(a, b)` (POSIX) for two parts. */
  function Join(a: string, b: string): string
  {
    if |b| > 0 && b[0] == '/' then b
    else if a == [] || a[|a| - 1] == '/' then a + b
    else a + "/" + b
  }

  /** `get_example_config_path`: `example_config.json` in the directory of the
      configuration file. */
  function GetExampleConfigPath(configPath: string): (r: string)
    ensures |r| >= |ExampleConfigName| && r[|r| - |ExampleConfigName|..] == ExampleConfigName
  {
    Join(Dirname(configPath), ExampleConfigName)
  }

  /** The example file sits next to the configuration file. */
  lemma ExamplePathIsSibling(dir: string, file: string)
    requires dir != [] && dir[|dir| - 1] != '/'
    requires forall j :: 0 <= j < |file| ==> file[j] != '/'
    ensures GetExampleConfigPath(dir + "/" + file) == dir + "/" + ExampleConfigName
  {
    var p := dir + "/" + file;
    LastSlashAt(p, |dir|);
    assert p[..|dir| + 1] == dir + "/";
    assert StripTrailingSlashes(dir + "/") == dir by {
      assert (dir + "/")[..|dir|] == dir;
    }
  }

  /** A bare file name has an empty directory, so the example path is the bare name. */
  lemma ExamplePathOfBareName(file: string)
    requires forall j :: 0 <= j < |file| ==> file[j] != '/'
    ensures GetExampleConfigPath(file) == ExampleConfigName
  {
  }

  lemma LastSlashAt(p: string, i: nat)
    requires i < |p| && p[i] == '/'
    requires forall j :: i < j < |p| ==> p[j] != '/'
    ensures LastSlash(p) == i
  {
  }
}

/** The compile cache: compiled JavaScript kept beside a header naming the compiler version and
    the build options, and served again while it is newer than its source. */
module CompileCache {

  datatype Option<T> = None | Some(value: T)

  type Options = map<string, string>   // build-affecting options, values as printed

  datatype File = File(text: string, mtime: nat)

  /** What this code calls: the compiler, the option printer and reader, and the naming of cache
      files (from a path and the namespace its text declares). */
  datatype Tools = Tools(
    compile: (string, string, bool, Options) -> string,
    show: Options -> string,
    read: string -> Option<Options>,
    prefix: (string, string) -> string)

  const STAMP := "// Compiled by ClojureScript "

  /** What `\S` refuses and what `.` refuses in a JavaScript regular expression. */
  predicate IsSpace(c: char) {
    || c in "\t\n\r \U{B}\U{C}\U{A0}\U{FEFF}\U{1680}\U{202F}\U{205F}\U{3000}"
    || '\U{2000}' <= c <= '\U{200A}' || EndsLine(c)
  }

  predicate EndsLine(c: char) {
    c == '\n' || c == '\r' || c == '\U{2028}' || c == '\U{2029}'
  }

  /** Options print on one line and are read back. */
  ghost predicate PrintsOptions(tools: Tools) {
    forall o ::
      && tools.read(" " + tools.show(o)) == Some(o)
      && forall i :: 0 <= i < |tools.show(o)| ==> !EndsLine(tools.show(o)[i])
  }

  predicate CleanVersion(version: string) {
    forall i :: 0 <= i < |version| ==> !IsSpace(version[i])
  }

  // ---------------------------------------------------------------- the header

  function BuildKeys(): set<string> {
    {"checked-arrays", "static-fns", "fn-invoke-direct", "optimizations"}
  }

  function Selected(env: map<string, string>): Options {
    map k | k in env && k in BuildKeys() :: env[k]
  }

  /** `form-build-affecting-options` */
  function FormOptions(asserts: bool, env: map<string, string>): Option<Options> {
    var m := (if asserts then map[] else map["elide-asserts" := "true"]) + Selected(env);
    if m == map[] then None else Some(m)
  }

  /** Both environments have this option, with one value, or neither has it. */
  ghost predicate Agree(env: map<string, string>, env': map<string, string>, option: string) {
    (option in env <==> option in env') && (option in env ==> env[option] == env'[option])
  }

  /** What makes two builds compile alike. */
  ghost predicate SameBuild(asserts: bool, env: map<string, string>, asserts': bool, env': map<string, string>) {
    && asserts == asserts'
    && Agree(env, env', "checked-arrays") && Agree(env, env', "static-fns")
    && Agree(env, env', "fn-invoke-direct") && Agree(env, env', "optimizations")
  }

  lemma SelectedAgree(env: map<string, string>, env': map<string, string>)
    ensures Selected(env) == Selected(env') <==>
      && Agree(env, env', "checked-arrays") && Agree(env, env', "static-fns")
      && Agree(env, env', "fn-invoke-direct") && Agree(env, env', "optimizations")
  {
    var m, m' := Selected(env), Selected(env');
    forall k | k in BuildKeys() ensures m == m' ==> Agree(env, env', k) {
      assert (k in m <==> k in env) && (k in m' <==> k in env');
      assert (k in m ==> m[k] == env[k]) && (k in m' ==> m'[k] == env'[k]);
    }
  }

  /** The options written in a header tell the builds apart. */
  lemma OptionsTellBuilds(asserts: bool, env: map<string, string>, asserts': bool, env': map<string, string>)
    ensures FormOptions(asserts, env) == FormOptions(asserts', env') <==> SameBuild(asserts, env, asserts', env')
    ensures SameBuild(asserts, env, asserts', env') <==> asserts == asserts' && Selected(env) == Selected(env')
  {
    SelectedAgree(env, env');
    OptionsSplit(asserts, env, asserts', env');
  }

  lemma OptionsSplit(asserts: bool, env: map<string, string>, asserts': bool, env': map<string, string>)
    ensures FormOptions(asserts, env) == FormOptions(asserts', env')
      <==> asserts == asserts' && Selected(env) == Selected(env')
  {
    var m := (if asserts then map[] else map["elide-asserts" := "true"]) + Selected(env);
    var m' := (if asserts' then map[] else map["elide-asserts" := "true"]) + Selected(env');
    assert "elide-asserts" in m <==> !asserts;
    assert "elide-asserts" in m' <==> !asserts';
    assert Selected(env) == map k | k in m && k in BuildKeys() :: m[k];
    assert Selected(env') == map k | k in m' && k in BuildKeys() :: m'[k];
  }

  /** What they look like: whether assertions are elided, and of the environment these four. */
  lemma OptionsWritten(asserts: bool, env: map<string, string>)
    ensures var four := {"checked-arrays", "static-fns", "fn-invoke-direct", "optimizations"};
            match FormOptions(asserts, env)
            case None => asserts && env.Keys !! four
            case Some(m) =>
              && (forall k :: k in m <==> (k == "elide-asserts" && !asserts) || (k in four && k in env))
              && (forall k :: k in m ==> m[k] == if k == "elide-asserts" then "true" else env[k])
  {
    var m := (if asserts then map[] else map["elide-asserts" := "true"]) + Selected(env);
    assert !asserts ==> "elide-asserts" in m;
    assert forall k :: k in env && k in BuildKeys() ==> k in m;
  }

  /** `form-compiled-by-string` */
  function CompiledBy(tools: Tools, version: string, options: Option<Options>): string {
    STAMP + version + if options.Some? then " " + tools.show(options.value) else ""
  }

  function CacheText(tools: Tools, version: string, options: Option<Options>, js: string): (text: string)
    ensures text != ""
  {
    CompiledBy(tools, version, options) + "\n" + js
  }

  /** How many characters come before the first that stops. */
  function Lead(s: string, stop: char -> bool): (n: nat)
    ensures n <= |s| && (n < |s| ==> stop(s[n])) && forall i :: 0 <= i < n ==> !stop(s[i])
  {
    if s == "" || stop(s[0]) then 0 else 1 + Lead(s[1..], stop)
  }

  /** The first occurrence of the stamp. */
  function FindStamp(s: string): Option<nat> {
    if STAMP <= s then Some(0)
    else if s == "" then None
    else match FindStamp(s[1..]) case None => None case Some(i) => Some(i + 1)
  }

  /** The two groups of the header's regular expression, wherever it first matches; an empty
      second group is absent. */
  function HeaderGroups(js: string): Option<(string, Option<string>)> {
    match FindStamp(js)
    case None => None
    case Some(i) =>
      if i + |STAMP| > |js| then None else
        var s := js[i + |STAMP|..];
        var n := Lead(s, IsSpace);
        var rest := s[n..];
        var m := Lead(rest, EndsLine);
        Some((s[..n], if m == 0 then None else Some(rest[..m])))
  }

  /** `extract-source-build-info` */
  function BuildInfo(tools: Tools, js: string): (Option<string>, Option<Options>) {
    match HeaderGroups(js)
    case None => (None, None)
    case Some((version, printed)) => (Some(version), if printed.Some? then tools.read(printed.value) else None)
  }

  /** `strip-first-line` */
  function StripFirstLine(s: string): string {
    var n := Lead(s, c => c == '\n');
    if n < |s| then s[n + 1..] else if s == "" then "" else s[1..]
  }

  lemma LeadOf(a: string, b: string, stop: char -> bool)
    requires (forall i :: 0 <= i < |a| ==> !stop(a[i])) && (b == "" || stop(b[0]))
    ensures Lead(a + b, stop) == |a|
  {
    assert forall i :: 0 <= i < |a| ==> (a + b)[i] == a[i];
    assert b == "" || (a + b)[|a|] == b[0];
  }

  lemma FindStampAtStart(s: string)
    ensures FindStamp(STAMP + s) == Some(0)
  {
  }

  /** The groups of a stamped line followed by a newline. */
  lemma HeaderGroupsOf(version: string, printed: string, js: string)
    requires CleanVersion(version) && (printed == "" || IsSpace(printed[0]))
    requires forall i :: 0 <= i < |printed| ==> !EndsLine(printed[i])
    ensures HeaderGroups(STAMP + (version + (printed + ("\n" + js)))) ==
      Some((version, if printed == "" then None else Some(printed)))
  {
    hide FindStamp, Lead;
    var tail := printed + ("\n" + js);
    var s := version + tail;
    var text := STAMP + s;
    FindStampAtStart(s);
    assert text[|STAMP|..] == s;
    assert IsSpace(tail[0]);
    LeadOf(version, tail, IsSpace);
    assert s[..|version|] == version && s[|version|..] == tail;
    LeadOf(printed, "\n" + js, EndsLine);
    assert tail[..|printed|] == printed;
  }

  lemma StripOf(line: string, js: string)
    requires forall i :: 0 <= i < |line| ==> line[i] != '\n'
    ensures StripFirstLine(line + "\n" + js) == js
  {
    hide Lead;
    var text := line + "\n" + js;
    assert text == line + ("\n" + js);
    LeadOf(line, "\n" + js, c => c == '\n');
    assert text[|line| + 1..] == js;
  }

  lemma CleanLine(version: string, printed: string)
    requires CleanVersion(version) && forall i :: 0 <= i < |printed| ==> !EndsLine(printed[i])
    ensures var line := STAMP + version + printed; forall i :: 0 <= i < |line| ==> line[i] != '\n'
  {
    var line := STAMP + version + printed;
    forall i | 0 <= i < |line| ensures line[i] != '\n' {
      if i >= |STAMP| + |version| {
        assert line[i] == printed[i - |STAMP| - |version|];
      }
    }
  }

  /** A written header reads back: the version, the options and the JavaScript itself. */
  lemma HeaderRoundTrip(tools: Tools, version: string, options: Option<Options>, js: string)
    requires PrintsOptions(tools) && CleanVersion(version)
    ensures BuildInfo(tools, CacheText(tools, version, options, js)) == (Some(version), options)
    ensures StripFirstLine(CacheText(tools, version, options, js)) == js
  {
    hide StripFirstLine, HeaderGroups;
    var printed := if options.Some? then " " + tools.show(options.value) else "";
    var line := STAMP + version + printed;
    assert forall i :: 0 <= i < |printed| ==> !EndsLine(printed[i]) by {
      if options.Some? {
        var shown := tools.show(options.value);
        assert tools.read(" " + shown) == Some(options.value);
        assert forall i :: 0 < i < |printed| ==> printed[i] == shown[i - 1];
      }
    }
    CleanLine(version, printed);
    assert CacheText(tools, version, options, js) == line + "\n" + js;
    assert line + "\n" + js == STAMP + (version + (printed + ("\n" + js)));
    HeaderGroupsOf(version, printed, js);
    StripOf(line, js);
  }

  // ---------------------------------------------------------------- loading

  datatype State = State(
    clock: nat,
    version: string,
    asserts: bool,
    env: map<string, string>,
    sources: map<string, File>,   // by path
    cache: map<string, File>)     // by cache prefix

  /** What compiling a text now gives. */
  function Compiled(tools: Tools, st: State, text: string): string {
    tools.compile(text, st.version, st.asserts, Selected(st.env))
  }

  /** `cached-js-valid?`, with its bundled case. */
  predicate CachedValid(tools: Tools, st: State, cached: Option<File>, modified: nat) {
    && cached.Some?
    && (|| 0 == cached.value.mtime == modified
        || (&& cached.value.mtime > modified
            && BuildInfo(tools, cached.value.text) == (Some(st.version), FormOptions(st.asserts, st.env))))
  }

  /** Reading a file: an empty one reads as missing. */
  function ReadFile(files: map<string, File>, path: string): Option<File> {
    if path in files && files[path].text != "" then Some(files[path]) else None
  }

  /** `cached-callback-data`: the JavaScript to use instead of compiling, if any. */
  function CachedJs(tools: Tools, st: State, path: string, source: File): Option<string> {
    var cached := ReadFile(st.cache, tools.prefix(path, source.text));
    if !CachedValid(tools, st, cached, source.mtime) then None
    else if 0 == cached.value.mtime == source.mtime then Some(cached.value.text)
    else Some(StripFirstLine(cached.value.text))
  }

  /** `write-cache` */
  function Written(tools: Tools, st: State, path: string, text: string): State {
    var content := CacheText(tools, st.version, FormOptions(st.asserts, st.env), Compiled(tools, st, text));
    st.(cache := st.cache[tools.prefix(path, text) := File(content, st.clock)])
  }

  datatype Op =
    | Tick(n: nat)
    | Edit(path: string, text: string)
    | Configure(version: string, asserts: bool, env: map<string, string>)
    | Load(path: string, caching: bool)   // caching: the compiled form can be, and is, written

  /** What a load evaluates. */
  function Served(tools: Tools, st: State, path: string): Option<string> {
    match ReadFile(st.sources, path)
    case None => None
    case Some(source) =>
      var cached := CachedJs(tools, st, path, source);
      Some(if cached.Some? then cached.value else Compiled(tools, st, source.text))
  }

  function Step(tools: Tools, st: State, op: Op): State {
    match op
    case Tick(n) => st.(clock := st.clock + n)
    case Edit(path, text) => st.(sources := st.sources[path := File(text, st.clock)])
    case Configure(version, asserts, env) => st.(version := version, asserts := asserts, env := env)
    case Load(path, caching) =>
      match ReadFile(st.sources, path)
      case None => st
      case Some(source) =>
        if caching && CachedJs(tools, st, path, source).None? then Written(tools, st, path, source.text) else st
  }

  ghost predicate Clean(op: Op) {
    op.Configure? ==> CleanVersion(op.version)
  }

  /** A load evaluates what compiling the current text with the current version and options gives. */
  ghost predicate ServesCurrent(tools: Tools, st: State, op: Op) {
    op.Load? && ReadFile(st.sources, op.path).Some? ==>
      Served(tools, st, op.path) == Some(Compiled(tools, st, st.sources[op.path].text))
  }

  ghost predicate AllCurrent(tools: Tools, st: State, ops: seq<Op>)
    decreases |ops|
  {
    ops == [] || (ServesCurrent(tools, st, ops[0]) && AllCurrent(tools, Step(tools, st, ops[0]), ops[1..]))
  }

  /** When a cache file written for some build answers: it is newer than the source, and the
      version and the build are those of now. A file dated zero is bundled, and answers for a
      bundled source as it is. */
  lemma AnswersExactly(tools: Tools, st: State, path: string, source: File,
                       v: string, a: bool, e: map<string, string>, js: string, mtime: nat)
    requires PrintsOptions(tools) && CleanVersion(v)
    requires tools.prefix(path, source.text) in st.cache
    requires st.cache[tools.prefix(path, source.text)] == File(CacheText(tools, v, FormOptions(a, e), js), mtime)
    ensures CachedJs(tools, st, path, source) ==
      if mtime > source.mtime && v == st.version && SameBuild(a, e, st.asserts, st.env) then Some(js)
      else if mtime == 0 && source.mtime == 0 then Some(CacheText(tools, v, FormOptions(a, e), js))
      else None
  {
    hide CacheText, BuildInfo, StripFirstLine, FormOptions, SameBuild, CleanVersion, PrintsOptions;
    HeaderRoundTrip(tools, v, FormOptions(a, e), js);
    OptionsTellBuilds(a, e, st.asserts, st.env);
  }

  lemma {:induction false} NoStampFound(s: string)
    requires forall i :: 0 <= i <= |s| ==> !(STAMP <= s[i..])
    ensures FindStamp(s) == None
  {
    assert s[0..] == s;
    if s != "" {
      forall i | 0 <= i <= |s[1..]| ensures !(STAMP <= s[1..][i..]) {
        assert s[1..][i..] == s[i + 1..];
      }
      NoStampFound(s[1..]);
    }
  }

  /** A file without the stamp answers only when bundled. */
  lemma UnstampedRefused(tools: Tools, st: State, path: string, source: File)
    requires tools.prefix(path, source.text) in st.cache
    requires var f := st.cache[tools.prefix(path, source.text)];
      !(f.mtime == 0 && source.mtime == 0) && forall i :: 0 <= i <= |f.text| ==> !(STAMP <= f.text[i..])
    ensures CachedJs(tools, st, path, source) == None
  {
    hide FormOptions, FindStamp;
    NoStampFound(st.cache[tools.prefix(path, source.text)].text);
  }

  /** The header as it stands in the file. */
  lemma HeaderText(tools: Tools, version: string, js: string, options: Options)
    ensures CacheText(tools, version, None, js) == "// Compiled by ClojureScript " + version + "\n" + js
    ensures CacheText(tools, version, Some(options), js)
      == "// Compiled by ClojureScript " + version + " " + tools.show(options) + "\n" + js
  {
    assert STAMP + version + "" == STAMP + version;
    assert STAMP + version + " " + tools.show(options) == STAMP + version + (" " + tools.show(options));
  }

  // ---------------------------------------------------------------- soundness

  /** Where a cache entry came from: what was loaded, and how it was compiled then. */
  datatype Origin = Origin(path: string, text: string, version: string, asserts: bool, env: map<string, string>)

  /** Whether a load writes the cache. */
  predicate Writes(tools: Tools, st: State, op: Op) {
    && op.Load? && op.caching && ReadFile(st.sources, op.path).Some?
    && CachedJs(tools, st, op.path, st.sources[op.path]).None?
  }

  function StepOrigins(tools: Tools, st: State, origins: map<string, Origin>, op: Op): map<string, Origin> {
    if Writes(tools, st, op) then
      var text := st.sources[op.path].text;
      origins[tools.prefix(op.path, text) := Origin(op.path, text, st.version, st.asserts, st.env)]
    else origins
  }

  ghost predicate CameFrom(tools: Tools, st: State, q: string, o: Origin)
    requires q in st.cache
  {
    && tools.prefix(o.path, o.text) == q && o.text != "" && CleanVersion(o.version)
    && st.cache[q].text == CacheText(tools, o.version, FormOptions(o.asserts, o.env),
        tools.compile(o.text, o.version, o.asserts, Selected(o.env)))
    // while the source is older than the entry, it is what the entry was made from
    && (o.path in st.sources && st.sources[o.path].mtime < st.cache[q].mtime ==> st.sources[o.path].text == o.text)
  }

  ghost predicate Inv(tools: Tools, st: State, origins: map<string, Origin>) {
    && st.clock > 0 && CleanVersion(st.version)
    && forall q :: q in st.cache ==>
      0 < st.cache[q].mtime <= st.clock && q in origins && CameFrom(tools, st, q, origins[q])
  }

  lemma InvStep(tools: Tools, st: State, origins: map<string, Origin>, op: Op)
    requires Inv(tools, st, origins) && Clean(op)
    ensures Inv(tools, Step(tools, st, op), StepOrigins(tools, st, origins, op))
  {
    hide CacheText, BuildInfo, StripFirstLine, FormOptions, Selected;
    var st', origins' := Step(tools, st, op), StepOrigins(tools, st, origins, op);
    forall q | q in st'.cache
      ensures 0 < st'.cache[q].mtime <= st'.clock && q in origins' && CameFrom(tools, st', q, origins'[q])
    {
      if !(Writes(tools, st, op) && q == tools.prefix(op.path, st.sources[op.path].text)) {
        assert CameFrom(tools, st, q, origins[q]);
      }
    }
  }

  /** A load is answered by the cache with what was compiled for another path, from a text that
      now compiles to something else. */
  predicate Foreign(tools: Tools, st: State, origins: map<string, Origin>, op: Op) {
    && op.Load? && ReadFile(st.sources, op.path).Some?
    && CachedJs(tools, st, op.path, st.sources[op.path]).Some?
    && var q := tools.prefix(op.path, st.sources[op.path].text);
    && q in origins && origins[q].path != op.path
    && Compiled(tools, st, origins[q].text) != Compiled(tools, st, st.sources[op.path].text)
  }

  /** A valid cache entry holds what compiling its origin's text now gives; when the origin is
      the path being loaded, that text is the current one. */
  lemma CachedIsCurrent(tools: Tools, st: State, origins: map<string, Origin>, path: string)
    requires PrintsOptions(tools) && Inv(tools, st, origins) && ReadFile(st.sources, path).Some?
    requires CachedJs(tools, st, path, st.sources[path]).Some?
    ensures var q := tools.prefix(path, st.sources[path].text);
      && q in st.cache && q in origins
      && Served(tools, st, path) == Some(Compiled(tools, st, origins[q].text))
      && (origins[q].path == path ==> origins[q].text == st.sources[path].text)
  {
    var q := tools.prefix(path, st.sources[path].text);
    var o := origins[q];
    assert CameFrom(tools, st, q, o);
    var options := FormOptions(o.asserts, o.env);
    HeaderRoundTrip(tools, o.version, options, tools.compile(o.text, o.version, o.asserts, Selected(o.env)));
    OptionsTellBuilds(o.asserts, o.env, st.asserts, st.env);
  }

  /** The exact condition for one load. */
  lemma LoadExactly(tools: Tools, st: State, origins: map<string, Origin>, op: Op)
    requires PrintsOptions(tools) && Inv(tools, st, origins)
    ensures ServesCurrent(tools, st, op) <==> !Foreign(tools, st, origins, op)
  {
    hide Compiled, CachedValid, Inv, PrintsOptions;
    if op.Load? && ReadFile(st.sources, op.path).Some? && CachedJs(tools, st, op.path, st.sources[op.path]).Some? {
      CachedIsCurrent(tools, st, origins, op.path);
    }
  }

  ghost predicate NoneForeign(tools: Tools, st: State, origins: map<string, Origin>, ops: seq<Op>)
    decreases |ops|
  {
    ops == [] || (
      && !Foreign(tools, st, origins, ops[0])
      && NoneForeign(tools, Step(tools, st, ops[0]), StepOrigins(tools, st, origins, ops[0]), ops[1..]))
  }

  /** The exact condition for a run. */
  lemma {:induction false} RunExactly(tools: Tools, st: State, origins: map<string, Origin>, ops: seq<Op>)
    requires PrintsOptions(tools) && Inv(tools, st, origins) && forall op :: op in ops ==> Clean(op)
    ensures AllCurrent(tools, st, ops) <==> NoneForeign(tools, st, origins, ops)
    decreases |ops|
  {
    hide PrintsOptions, Inv, ServesCurrent, Foreign, Step, StepOrigins, Clean;
    if ops != [] {
      LoadExactly(tools, st, origins, ops[0]);
      InvStep(tools, st, origins, ops[0]);
      RunExactly(tools, Step(tools, st, ops[0]), StepOrigins(tools, st, origins, ops[0]), ops[1..]);
    }
  }

  /** Each cache file belongs to one path, and a load of that path alone uses it: what a user
      can check of a run, whatever the namespaces that name the files. */
  ghost predicate Owned(tools: Tools, st: State, own: string -> string, ops: seq<Op>)
    decreases |ops|
  {
    ops == [] || (OwnLoad(tools, st, own, ops[0]) && Owned(tools, Step(tools, st, ops[0]), own, ops[1..]))
  }

  predicate OwnLoad(tools: Tools, st: State, own: string -> string, op: Op) {
    op.Load? && ReadFile(st.sources, op.path).Some? ==> own(tools.prefix(op.path, st.sources[op.path].text)) == op.path
  }

  /** In every run whose loads keep to their own cache files, from any cache filled that way,
      every load evaluates what compiling the current source gives. */
  lemma {:induction false} OwnedIsSound(tools: Tools, st: State, origins: map<string, Origin>,
                                        own: string -> string, ops: seq<Op>)
    requires PrintsOptions(tools) && Inv(tools, st, origins) && forall op :: op in ops ==> Clean(op)
    requires Owned(tools, st, own, ops) && forall q :: q in origins ==> origins[q].path == own(q)
    ensures NoneForeign(tools, st, origins, ops) && AllCurrent(tools, st, ops)
    decreases |ops|
  {
    hide PrintsOptions, Inv, Step, Clean, CachedValid, Compiled;
    RunExactly(tools, st, origins, ops);
    if ops != [] {
      InvStep(tools, st, origins, ops[0]);
      OwnedIsSound(tools, Step(tools, st, ops[0]), StepOrigins(tools, st, origins, ops[0]), own, ops[1..]);
    }
  }

  const FRESH := State(1, "", true, map[], map[], map[])

  /** Two files that share a cache file: loading one, then the other, runs the first's code. */
  function Collision(p: string, t: string, p': string, t': string,
                     v: string, a: bool, e: map<string, string>): seq<Op>
  {
    [Configure(v, a, e), Edit(p, t), Edit(p', t'), Tick(1), Load(p, true), Load(p', true)]
  }

  lemma CollisionServesOther(tools: Tools, p: string, t: string, p': string, t': string,
                             v: string, a: bool, e: map<string, string>)
    requires PrintsOptions(tools) && CleanVersion(v) && p != p' && t != "" && t' != ""
    requires tools.prefix(p, t) == tools.prefix(p', t')
    requires tools.compile(t, v, a, Selected(e)) != tools.compile(t', v, a, Selected(e))
    ensures !AllCurrent(tools, FRESH, Collision(p, t, p', t', v, a, e))
  {
    var s1 := Step(tools, FRESH, Configure(v, a, e));
    var s2 := Step(tools, s1, Edit(p, t));
    var s3 := Step(tools, s2, Edit(p', t'));
    var s4 := Step(tools, s3, Tick(1));
    LoadsCollide(tools, s4, p, t, p', t');
    NotCurrentCons(tools, s3, Tick(1), [Load(p, true), Load(p', true)]);
    NotCurrentCons(tools, s2, Edit(p', t'), [Tick(1), Load(p, true), Load(p', true)]);
    NotCurrentCons(tools, s1, Edit(p, t), [Edit(p', t'), Tick(1), Load(p, true), Load(p', true)]);
    var rest := [Edit(p, t), Edit(p', t'), Tick(1), Load(p, true), Load(p', true)];
    NotCurrentCons(tools, FRESH, Configure(v, a, e), rest);
    assert Collision(p, t, p', t', v, a, e) == [Configure(v, a, e)] + rest;
  }

  lemma NotCurrentCons(tools: Tools, st: State, op: Op, rest: seq<Op>)
    requires !AllCurrent(tools, Step(tools, st, op), rest)
    ensures !AllCurrent(tools, st, [op] + rest)
  {
    assert ([op] + rest)[1..] == rest;
  }

  /** What is written is served to every path that uses the file and is older than it, so a
      source edited between being read and its compiled form being written is served stale. */
  lemma WrittenIsServed(tools: Tools, st: State, path: string, text: string, reader: string)
    requires PrintsOptions(tools) && CleanVersion(st.version) && ReadFile(st.sources, reader).Some?
    requires tools.prefix(reader, st.sources[reader].text) == tools.prefix(path, text)
    requires st.sources[reader].mtime < st.clock
    ensures Served(tools, Written(tools, st, path, text), reader) == Some(Compiled(tools, st, text))
  {
    hide CacheText, BuildInfo, StripFirstLine, FormOptions, Selected, CleanVersion, PrintsOptions;
    var st' := Written(tools, st, path, text);
    var content := CacheText(tools, st.version, FormOptions(st.asserts, st.env), Compiled(tools, st, text));
    HeaderRoundTrip(tools, st.version, FormOptions(st.asserts, st.env), Compiled(tools, st, text));
    assert ReadFile(st'.cache, tools.prefix(path, text)) == Some(File(content, st.clock));
  }

  /** So it goes when a load has read `t`, the file is edited to `t'` while `t` is compiled, and
      what came of `t` is written a moment later: the next load is answered with that. */
  lemma EditDuringLoad(tools: Tools, p: string, t: string, t': string, v: string, a: bool, e: map<string, string>)
    requires PrintsOptions(tools) && CleanVersion(v) && t' != "" && tools.prefix(p, t) == tools.prefix(p, t')
    requires tools.compile(t, v, a, Selected(e)) != tools.compile(t', v, a, Selected(e))
    ensures var read := Step(tools, Step(tools, FRESH, Configure(v, a, e)), Edit(p, t));
            var edited := Step(tools, Step(tools, read, Edit(p, t')), Tick(1));
            && read.sources[p].text == t && edited.sources[p].text == t'
            && Served(tools, Written(tools, edited, p, t), p) == Some(Compiled(tools, edited, t))
            && !ServesCurrent(tools, Written(tools, edited, p, t), Load(p, true))
  {
    hide CacheText, BuildInfo, StripFirstLine, FormOptions, Selected, CleanVersion, PrintsOptions;
    var read := Step(tools, Step(tools, FRESH, Configure(v, a, e)), Edit(p, t));
    var edited := Step(tools, Step(tools, read, Edit(p, t')), Tick(1));
    WrittenIsServed(tools, edited, p, t, p);
    hide Served;
  }

  lemma LoadsCollide(tools: Tools, st: State, p: string, t: string, p': string, t': string)
    requires PrintsOptions(tools) && CleanVersion(st.version) && p != p' && t != "" && t' != ""
    requires tools.prefix(p, t) == tools.prefix(p', t') && Compiled(tools, st, t) != Compiled(tools, st, t')
    requires st.sources == map[p := File(t, 1), p' := File(t', 1)] && st.cache == map[] && st.clock == 2
    ensures !AllCurrent(tools, st, [Load(p, true), Load(p', true)])
  {
    hide CacheText, BuildInfo, StripFirstLine, FormOptions, Selected, CleanVersion, PrintsOptions;
    var st' := Step(tools, st, Load(p, true));
    assert st' == Written(tools, st, p, t);
    WrittenIsServed(tools, st, p, t, p');
    hide Served, Step;
    assert !ServesCurrent(tools, st', Load(p', true));
    assert !AllCurrent(tools, st', [Load(p', true)]);
    NotCurrentCons(tools, st, Load(p, true), [Load(p', true)]);
    assert [Load(p, true)] + [Load(p', true)] == [Load(p, true), Load(p', true)];
  }

  // ---------------------------------------------------------------- the loader

  /** The files, and the settings loads look at. */
  class Loader {
    const tools: Tools
    var clock: nat
    var version: string
    var asserts: bool
    var env: map<string, string>
    var sources: map<string, File>
    var cache: map<string, File>
    ghost var origins: map<string, Origin>

    constructor (tools: Tools, version: string, asserts: bool, env: map<string, string>)
      requires CleanVersion(version)
      ensures this.tools == tools && Now() == FRESH.(version := version, asserts := asserts, env := env)
      ensures Inv(tools, Now(), origins) && origins == map[]
    {
      this.tools, this.version, this.asserts, this.env := tools, version, asserts, env;
      clock, sources, cache, origins := 1, map[], map[], map[];
    }

    function Now(): State
      reads this
    {
      State(clock, version, asserts, env, sources, cache)
    }

    method WriteCache(path: string, text: string)
      modifies this`cache
      ensures Now() == Written(tools, old(Now()), path, text)
    {
      var options := FormOptions(asserts, env);
      var content := CompiledBy(tools, version, options) + "\n" + tools.compile(text, version, asserts, Selected(env));
      cache := cache[tools.prefix(path, text) := File(content, clock)];
    }

    method CachedCallbackData(path: string, source: File) returns (js: Option<string>)
      ensures js == CachedJs(tools, Now(), path, source)
    {
      var cached := ReadFile(cache, tools.prefix(path, source.text));
      js := None;
      if CachedValid(tools, Now(), cached, source.mtime) {
        if 0 == cached.value.mtime == source.mtime {
          js := Some(cached.value.text);
        } else {
          js := Some(StripFirstLine(cached.value.text));
        }
      }
    }

    /** `load-and-callback!` and the evaluation it leads to: what compiling the current text
        gives, except exactly when another path's entry answers. */
    method LoadAndCallback(path: string, caching: bool) returns (js: Option<string>)
      requires PrintsOptions(tools) && Inv(tools, Now(), origins)
      modifies this`cache, this`origins
      ensures Now() == Step(tools, old(Now()), Load(path, caching)) && Inv(tools, Now(), origins)
      ensures origins == StepOrigins(tools, old(Now()), old(origins), Load(path, caching))
      ensures js.None? <==> path !in sources || sources[path].text == ""
      ensures js.Some? ==>
        (js.value == tools.compile(sources[path].text, version, asserts, Selected(env))
         <==> !Foreign(tools, old(Now()), old(origins), Load(path, caching)))
    {
      hide PrintsOptions, CameFrom;
      ghost var st, op := Now(), Load(path, caching);
      InvStep(tools, st, origins, op);
      LoadExactly(tools, st, origins, op);
      origins := StepOrigins(tools, st, origins, op);
      var source := ReadFile(sources, path);
      if source.None? {
        return None;
      }
      js := CachedCallbackData(path, source.value);
      if js.None? {
        js := Some(tools.compile(source.value.text, version, asserts, Selected(env)));
        if caching {
          WriteCache(path, source.value.text);
        }
      }
    }
  }
}

/** The link-mode decision of the `alsa-sys` build script: environment
    variable lookup with a target-derived prefix, the `ALSA_LIBS` library
    list, the static/dynamic decision over the files of the library
    directory, and the `rustc-link-lib` directives that follow from it.
    Cargo's environment is a map, the library directory's listing a set of
    file names, and what the script prints a sequence of directives. */
module AlsaBuild {
  import opened Strings

  datatype Option<T> = None | Some(value: T)

  /** An `OsString` from the environment: either valid UTF-8 text, or bytes
      that `to_str()` refuses. */
  datatype OsValue = Utf8(text: string) | NonUtf8(bytes: seq<bv8>)

  type Environment = map<string, OsValue>

  /** The two kinds a library can be linked as (`"static"`, `"dylib"`). */
  datatype LinkKind = Static | Dylib

  /** What `determine_mode` produces: a kind, or the panic raised when the
      directory holds neither complete set of artifacts. */
  datatype ModeResult = Chosen(kind: LinkKind) | Unlinkable

  /** The `cargo:` lines the script prints. */
  datatype Directive =
    | RerunIfEnvChanged(name: string)
    | LinkSearchNative(dir: string)
    | Include(dir: string)
    | LinkLib(kind: LinkKind, lib: string)

  /** How a run of the script ends after the link-search line. */
  datatype Outcome = Finished | Panicked

  // ---------------------------------------------------------------------
  // Environment lookup (`env`)
  // ---------------------------------------------------------------------

  /** The target triple, uppercased, with every `-` turned into `_`. */
  function TargetPrefix(target: string): (p: string)
    ensures |p| == |target|
    ensures forall i :: 0 <= i < |target| ==>
      p[i] == (if target[i] == '-' then '_'
               else if IsAsciiLower(target[i]) then target[i] - 'a' + 'A'
               else target[i])
  {
    Replace(Uppercase(target), '-', '_')
  }

  /** The target-specific name of logical variable `name`. */
  function PrefixedName(target: string, name: string): (r: string)
    ensures |r| == |target| + 1 + |name|
    ensures r[..|target|] == TargetPrefix(target)
    ensures r[|target|] == '_'
    ensures r[|target| + 1..] == name
  {
    TargetPrefix(target) + "_" + name
  }

  /** The prefix rewrites `-` to `_` and lower-case ASCII letters to upper
      case, leaves every other character alone, and is followed by `_` and
      the logical name unchanged. */
  lemma PrefixedNameShape(target: string, name: string)
    ensures |PrefixedName(target, name)| == |target| + 1 + |name|
    ensures forall i :: 0 <= i < |target| && target[i] == '-' ==> PrefixedName(target, name)[i] == '_'
    ensures forall i :: 0 <= i < |target| && IsAsciiLower(target[i]) ==>
      PrefixedName(target, name)[i] == target[i] - 'a' + 'A'
    ensures forall i :: 0 <= i < |target| && target[i] != '-' && !IsAsciiLower(target[i]) ==>
      PrefixedName(target, name)[i] == target[i]
    ensures PrefixedName(target, name)[|target|] == '_'
    ensures PrefixedName(target, name)[|target| + 1..] == name
    ensures PrefixedName(target, name) != name
  {
  }

  /** The value `env` returns. */
  function Lookup(env: Environment, target: string, name: string): (r: Option<OsValue>)
    ensures r.None? <==> PrefixedName(target, name) !in env && name !in env
    ensures r.Some? ==> r.value in env.Values
  {
    var prefixed := PrefixedName(target, name);
    if prefixed in env then Some(env[prefixed])
    else if name in env then Some(env[name])
    else None
  }

  /** The `rerun-if-env-changed` lines `env` prints. */
  function Reruns(env: Environment, target: string, name: string): (r: seq<Directive>)
    ensures 1 <= |r| <= 2
    ensures r[0] == RerunIfEnvChanged(PrefixedName(target, name))
    ensures |r| == 2 <==> PrefixedName(target, name) !in env
    ensures |r| == 2 ==> r[1] == RerunIfEnvChanged(name)
  {
    var prefixed := PrefixedName(target, name);
    if prefixed in env then [RerunIfEnvChanged(prefixed)]
    else [RerunIfEnvChanged(prefixed), RerunIfEnvChanged(name)]
  }

  /** A set target-prefixed variable hides the bare one, which then gets no
      rerun directive; an unset one falls back to the bare variable, and both
      names are announced, prefixed first. */
  lemma LookupPrecedence(env: Environment, target: string, name: string)
    ensures PrefixedName(target, name) in env ==>
      Lookup(env, target, name) == Some(env[PrefixedName(target, name)]) &&
      Reruns(env, target, name) == [RerunIfEnvChanged(PrefixedName(target, name))] &&
      RerunIfEnvChanged(name) !in Reruns(env, target, name)
    ensures PrefixedName(target, name) !in env ==>
      (Lookup(env, target, name).Some? <==> name in env) &&
      (name in env ==> Lookup(env, target, name) == Some(env[name])) &&
      Reruns(env, target, name) == [RerunIfEnvChanged(PrefixedName(target, name)), RerunIfEnvChanged(name)]
  {
  }

  /** `env(name)`: announces the prefixed name, returns its value if set;
      otherwise announces the bare name and returns its value. */
  method Env(env: Environment, target: string, name: string) returns (value: Option<OsValue>, emitted: seq<Directive>)
    ensures value == Lookup(env, target, name)
    ensures emitted == Reruns(env, target, name)
    ensures |emitted| >= 1 && emitted[0] == RerunIfEnvChanged(PrefixedName(target, name))
  {
    var prefix := Replace(Uppercase(target), '-', '_');
    var prefixed := prefix + "_" + name;
    emitted := [RerunIfEnvChanged(prefixed)];
    if prefixed in env {
      return Some(env[prefixed]), emitted;
    }
    emitted := emitted + [RerunIfEnvChanged(name)];
    value := if name in env then Some(env[name]) else None;
  }

  // ---------------------------------------------------------------------
  // The library list (`ALSA_LIBS`)
  // ---------------------------------------------------------------------

  /** The libraries to link: the `:`-separated pieces of a UTF-8 value, and
      `["asound"]` when the variable is unset or not UTF-8. */
  function ParseLibs(v: Option<OsValue>): (libs: seq<string>)
    ensures |libs| >= 1
    ensures (v.None? || v.value.NonUtf8?) ==> libs == ["asound"]
    ensures v.Some? && v.value.Utf8? ==>
      |libs| == Occurrences(v.value.text, ':') + 1 &&
      (forall i :: 0 <= i < |libs| ==> ':' !in libs[i]) &&
      Join(libs, ':') == v.value.text
  {
    match v
    case Some(Utf8(s)) =>
      JoinSplit(s, ':');
      Split(s, ':')
    case _ => ["asound"]
  }

  /** Every non-empty list of colon-free names is what its `:`-join parses
      to, pieces and order included. */
  lemma ParseLibsRoundTrip(libs: seq<string>)
    requires |libs| >= 1
    requires forall i :: 0 <= i < |libs| ==> ':' !in libs[i]
    ensures ParseLibs(Some(Utf8(Join(libs, ':')))) == libs
  {
    SplitJoin(libs, ':');
  }

  lemma ExampleThreeLibs()
    ensures ParseLibs(Some(Utf8("a:b:c"))) == ["a", "b", "c"]
    ensures ParseLibs(Some(Utf8(""))) == [""]
    ensures ParseLibs(None) == ["asound"]
  {
    ParseLibsRoundTrip(["a", "b", "c"]);
    assert Join(["a", "b", "c"], ':') == "a:b:c";
    SplitWithoutSeparator("", ':');
  }

  // ---------------------------------------------------------------------
  // Static or dynamic (`determine_mode`)
  // ---------------------------------------------------------------------

  /** The names a static artifact of library `l` may have. */
  function StaticNames(l: string): set<string> {
    {"lib" + l + ".a", l + ".lib"}
  }

  /** The names a dynamic artifact of library `l` may have. */
  function DylibNames(l: string): set<string> {
    {"lib" + l + ".so", l + ".dll", "lib" + l + ".dylib"}
  }

  /** `lib{l}.a` or `{l}.lib` is in the directory. */
  predicate HasStatic(files: set<string>, l: string): (b: bool)
    ensures b <==> StaticNames(l) * files != {}
  {
    var archive, lib := "lib" + l + ".a", l + ".lib";
    assert archive in files ==> archive in StaticNames(l) * files;
    assert lib in files ==> lib in StaticNames(l) * files;
    archive in files || lib in files
  }

  /** `lib{l}.so`, `{l}.dll` or `lib{l}.dylib` is in the directory. */
  predicate HasDylib(files: set<string>, l: string): (b: bool)
    ensures b <==> DylibNames(l) * files != {}
  {
    var so, dll, dylib := "lib" + l + ".so", l + ".dll", "lib" + l + ".dylib";
    assert so in files ==> so in DylibNames(l) * files;
    assert dll in files ==> dll in DylibNames(l) * files;
    assert dylib in files ==> dylib in DylibNames(l) * files;
    so in files || dll in files || dylib in files
  }

  ghost predicate CanStatic(files: set<string>, libs: seq<string>) {
    forall i :: 0 <= i < |libs| ==> HasStatic(files, libs[i])
  }

  ghost predicate CanDylib(files: set<string>, libs: seq<string>) {
    forall i :: 0 <= i < |libs| ==> HasDylib(files, libs[i])
  }

  /** `libs.iter().all(...)` for the static artifacts, front to back. */
  function AllStatic(files: set<string>, libs: seq<string>): (b: bool)
    ensures b <==> CanStatic(files, libs)
  {
    |libs| == 0 || (HasStatic(files, libs[0]) && AllStatic(files, libs[1..]))
  }

  /** `libs.iter().all(...)` for the dynamic artifacts, front to back. */
  function AllDylib(files: set<string>, libs: seq<string>): (b: bool)
    ensures b <==> CanDylib(files, libs)
  {
    |libs| == 0 || (HasDylib(files, libs[0]) && AllDylib(files, libs[1..]))
  }

  /** The body of `determine_mode` once `ALSA_STATIC` has been looked up and
      the directory listed: `"0"` forces dylib, any other UTF-8 value
      (the empty one too) forces static, and otherwise the probe decides,
      preferring dylib when both kinds are complete. */
  function Decide(staticVar: Option<OsValue>, files: set<string>, libs: seq<string>): (r: ModeResult)
    ensures staticVar == Some(Utf8("0")) ==> r == Chosen(Dylib)
    ensures staticVar.Some? && staticVar.value.Utf8? && staticVar.value.text != "0" ==> r == Chosen(Static)
    ensures (staticVar.None? || staticVar.value.NonUtf8?) ==>
      (r == Chosen(Static) <==> CanStatic(files, libs) && !CanDylib(files, libs)) &&
      (r == Chosen(Dylib) <==> CanDylib(files, libs)) &&
      (r == Unlinkable <==> !CanStatic(files, libs) && !CanDylib(files, libs))
  {
    match staticVar
    case Some(Utf8(s)) => if s == "0" then Chosen(Dylib) else Chosen(Static)
    case _ =>
      var canStatic := AllStatic(files, libs);
      var canDylib := AllDylib(files, libs);
      match (canStatic, canDylib)
      case (true, false) => Chosen(Static)
      case (false, true) => Chosen(Dylib)
      case (false, false) => Unlinkable
      case (true, true) => Chosen(Dylib)
  }

  /** With no usable override, an empty library list links dynamically. */
  lemma EmptyLibsLinkDynamically(staticVar: Option<OsValue>, files: set<string>)
    requires staticVar.None? || staticVar.value.NonUtf8?
    ensures Decide(staticVar, files, []) == Chosen(Dylib)
  {
  }

  /** More files in the directory never turn a decision into the panic, and
      a dynamic decision stays dynamic. */
  lemma MoreFilesKeepDecision(staticVar: Option<OsValue>, files: set<string>, more: set<string>, libs: seq<string>)
    requires files <= more
    ensures Decide(staticVar, files, libs).Chosen? ==> Decide(staticVar, more, libs).Chosen?
    ensures Decide(staticVar, files, libs) == Chosen(Dylib) ==> Decide(staticVar, more, libs) == Chosen(Dylib)
  {
  }

  /** A shared object alone links dynamically; a library that lacks its shared
      object, while every library has its archive, links statically. */
  lemma ExampleProbes()
    ensures Decide(None, {"libasound.so"}, ["asound"]) == Chosen(Dylib)
    ensures Decide(None, {"libasound.a", "libextra.a", "libasound.so"}, ["asound", "extra"]) == Chosen(Static)
  {
    var files := {"libasound.a", "libextra.a", "libasound.so"};
    var libs := ["asound", "extra"];
    assert "lib" + "asound" + ".so" == "libasound.so";
    assert "lib" + "asound" + ".a" == "libasound.a";
    assert "lib" + "extra" + ".a" == "libextra.a";
    assert !HasDylib(files, libs[1]) by {
      assert "lib" + "extra" + ".so" == "libextra.so";
      assert "extra" + ".dll" == "extra.dll";
      assert "lib" + "extra" + ".dylib" == "libextra.dylib";
    }
  }

  /** `determine_mode`: looks up `ALSA_STATIC` (printing its rerun lines),
      then decides over the listed directory. */
  method DetermineMode(env: Environment, target: string, files: set<string>, libs: seq<string>)
    returns (mode: ModeResult, emitted: seq<Directive>)
    ensures mode == Decide(Lookup(env, target, "ALSA_STATIC"), files, libs)
    ensures emitted == Reruns(env, target, "ALSA_STATIC")
  {
    var kind;
    kind, emitted := Env(env, target, "ALSA_STATIC");
    mode := Decide(kind, files, libs);
  }

  // ---------------------------------------------------------------------
  // Link directives and the run of `main` after the directory pair is known
  // ---------------------------------------------------------------------

  /** One `rustc-link-lib` line per library, in order, all of one kind. */
  function LinkLines(kind: LinkKind, libs: seq<string>): (lines: seq<Directive>)
    ensures |lines| == |libs|
    ensures forall i :: 0 <= i < |libs| ==> lines[i] == LinkLib(kind, libs[i])
  {
    seq(|libs|, i requires 0 <= i < |libs| => LinkLib(kind, libs[i]))
  }

  /** The `for lib in libs` loop of `main`. */
  method EmitLinkLibs(kind: LinkKind, libs: seq<string>) returns (out: seq<Directive>)
    ensures out == LinkLines(kind, libs)
  {
    out := [];
    for i := 0 to |libs|
      invariant |out| == i
      invariant forall j :: 0 <= j < i ==> out[j] == LinkLib(kind, libs[j])
    {
      out := out + [LinkLib(kind, libs[i])];
    }
  }

  /** The lines `main` prints from line 53 on, and how it ends. */
  function Expected(env: Environment, target: string, libDir: string, includeDir: string, files: set<string>)
    : (seq<Directive>, Outcome)
  {
    var libs := ParseLibs(Lookup(env, target, "ALSA_LIBS"));
    var mode := Decide(Lookup(env, target, "ALSA_STATIC"), files, libs);
    var head := [LinkSearchNative(libDir), Include(includeDir)]
      + Reruns(env, target, "ALSA_LIBS") + Reruns(env, target, "ALSA_STATIC");
    if mode.Unlinkable? then (head, Panicked)
    else (head + LinkLines(mode.kind, libs), Finished)
  }

  /** `main` once the library and include directories are settled. */
  method Run(env: Environment, target: string, libDir: string, includeDir: string, files: set<string>)
    returns (out: seq<Directive>, outcome: Outcome)
    ensures (out, outcome) == Expected(env, target, libDir, includeDir, files)
  {
    out := [LinkSearchNative(libDir), Include(includeDir)];
    var libsVar, libsReruns := Env(env, target, "ALSA_LIBS");
    out := out + libsReruns;
    var libs := ParseLibs(libsVar);
    var mode, staticReruns := DetermineMode(env, target, files, libs);
    out := out + staticReruns;
    if mode.Unlinkable? {
      return out, Panicked;
    }
    var links := EmitLinkLibs(mode.kind, libs);
    out := out + links;
    outcome := Finished;
  }

  /** The `rustc-link-lib` lines among the printed ones, in order. */
  function LinkLibsOf(out: seq<Directive>): seq<Directive> {
    if out == [] then []
    else (if out[0].LinkLib? then [out[0]] else []) + LinkLibsOf(out[1..])
  }

  lemma {:induction false} LinkLibsOfAppend(a: seq<Directive>, b: seq<Directive>)
    ensures LinkLibsOf(a + b) == LinkLibsOf(a) + LinkLibsOf(b)
  {
    if a == [] {
      assert a + b == b;
    } else {
      assert (a + b)[0] == a[0];
      assert (a + b)[1..] == a[1..] + b;
      LinkLibsOfAppend(a[1..], b);
    }
  }

  lemma {:induction false} NoLinkLibs(out: seq<Directive>)
    requires forall i :: 0 <= i < |out| ==> !out[i].LinkLib?
    ensures LinkLibsOf(out) == []
  {
    if out != [] {
      NoLinkLibs(out[1..]);
    }
  }

  lemma {:induction false} LinkLibsOfLinkLines(kind: LinkKind, libs: seq<string>)
    ensures LinkLibsOf(LinkLines(kind, libs)) == LinkLines(kind, libs)
  {
    if libs != [] {
      var lines := LinkLines(kind, libs);
      assert lines[1..] == LinkLines(kind, libs[1..]);
      LinkLibsOfLinkLines(kind, libs[1..]);
    }
  }

  /** A finished run prints exactly one link line per library of the list, in
      list order, all of the decided kind, and at least one; a panicked run
      prints none. */
  lemma RunLinkDirectives(env: Environment, target: string, libDir: string, includeDir: string, files: set<string>)
    ensures var (out, outcome) := Expected(env, target, libDir, includeDir, files);
      var libs := ParseLibs(Lookup(env, target, "ALSA_LIBS"));
      var mode := Decide(Lookup(env, target, "ALSA_STATIC"), files, libs);
      (outcome == Panicked <==> mode == Unlinkable) &&
      (outcome == Panicked ==> LinkLibsOf(out) == []) &&
      (outcome == Finished ==>
        |LinkLibsOf(out)| == |libs| >= 1 &&
        forall i :: 0 <= i < |libs| ==> LinkLibsOf(out)[i] == LinkLib(mode.kind, libs[i]))
  {
    var libs := ParseLibs(Lookup(env, target, "ALSA_LIBS"));
    var mode := Decide(Lookup(env, target, "ALSA_STATIC"), files, libs);
    var head := [LinkSearchNative(libDir), Include(includeDir)]
      + Reruns(env, target, "ALSA_LIBS") + Reruns(env, target, "ALSA_STATIC");
    assert LinkLibsOf(head) == [] by {
      var r1 := Reruns(env, target, "ALSA_LIBS");
      var r2 := Reruns(env, target, "ALSA_STATIC");
      NoLinkLibs([LinkSearchNative(libDir), Include(includeDir)]);
      NoLinkLibs(r1);
      NoLinkLibs(r2);
      LinkLibsOfAppend([LinkSearchNative(libDir), Include(includeDir)], r1);
      LinkLibsOfAppend([LinkSearchNative(libDir), Include(includeDir)] + r1, r2);
    }
    if mode.Chosen? {
      LinkLibsOfAppend(head, LinkLines(mode.kind, libs));
      LinkLibsOfLinkLines(mode.kind, libs);
    }
  }
}

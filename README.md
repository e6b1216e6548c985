# ALSA link-mode resolution, modelled in Dafny

This project models the decision core of the `alsa-sys` build script. That
script links a Rust crate against the native ALSA library.

The model covers four pieces:

- **Variable lookup.** Each environment variable is looked up first under a
  target-specific name and then under its bare name. The target name is the
  `TARGET` triple uppercased, with `-` turned into `_`, then `_` and the
  logical name.
- **The library list.** The list of libraries comes from `ALSA_LIBS`.
- **The link mode.** The choice between static and dynamic linking is made
  by `determine_mode`. It reads the `ALSA_STATIC` override or, failing that,
  probes the library directory for artifact file names.
- **The link directives.** One `rustc-link-lib` directive is printed per
  library.

Cargo's environment is a `map<string, OsValue>`. Each value is either UTF-8
text or bytes that `to_str()` rejects. The library directory's listing is a
`set<string>` of file names. What the script prints is a sequence of
`Directive` values.

- `strings.dfy` (module `Strings`): ASCII uppercasing, one-character
  replacement, and Rust `str::split` on one separator with its `join`
  inverse.
- `build.dfy` (module `AlsaBuild`): `env`, the `ALSA_LIBS` parse,
  `determine_mode` and the directive emission of `main`.

An empty `ALSA_STATIC` forces static linking. The doc comment at
alsa-sys/build.rs:27 only says to set `ALSA_STATIC` to force static linking.
Line 77 matches every UTF-8 value other than `"0"`, the empty one included,
and the model follows the code.

## Model

| member | source | states |
|---|---|---|
| Strings.Split | alsa-sys/build.rs:61 | `split(':')` yields exactly one more piece than there are separators, and no piece contains the separator |
| Strings.JoinSplit | alsa-sys/build.rs:61 | joining the pieces of a split with the separator gives back the original string, so order and empty pieces are kept |
| Strings.SplitJoin | alsa-sys/build.rs:61 | splitting the join of a non-empty list of separator-free pieces gives back that list |
| Strings.Uppercase | alsa-sys/build.rs:30 | `to_uppercase` keeps the length and maps each character to its ASCII upper-case form, leaving all others unchanged |
| Strings.Replace | alsa-sys/build.rs:30 | `replace("-", "_")` keeps the length and rewrites exactly the positions holding `-` |
| AlsaBuild.TargetPrefix | alsa-sys/build.rs:30 | the prefix has the target's length; position by position, `-` becomes `_`, a lower-case ASCII letter becomes upper case, and anything else is kept |
| AlsaBuild.PrefixedName | alsa-sys/build.rs:31 | the prefixed name is the prefix, then `_`, then the unchanged logical name |
| AlsaBuild.PrefixedNameShape | alsa-sys/build.rs:30-31 | the prefixed name is the target with `-` mapped to `_` and lower-case ASCII letters to upper case, every other character unchanged, then `_`, then the logical name; it never equals the bare name |
| AlsaBuild.Lookup | alsa-sys/build.rs:34-39 | the value `env` returns is absent exactly when neither the prefixed nor the bare variable is set, and is otherwise one of the environment's values |
| AlsaBuild.Reruns | alsa-sys/build.rs:32-38 | `env` prints one or two rerun lines; the first always names the prefixed variable, and the second, naming the bare variable, is printed exactly when the prefixed variable is unset |
| AlsaBuild.LookupPrecedence | alsa-sys/build.rs:32-39 | a set prefixed variable supplies the value, and the only rerun line names the prefixed variable, so the bare name gets none; otherwise the bare variable's value (or nothing) is returned and both names are announced, prefixed first |
| AlsaBuild.Env | alsa-sys/build.rs:29-40 | the step-by-step lookup returns the value and prints the rerun directives given by the lookup specification; the prefixed name is always announced first |
| AlsaBuild.ParseLibs | alsa-sys/build.rs:59-63 | an unset or non-UTF-8 `ALSA_LIBS` gives `["asound"]`; a UTF-8 value gives (colons + 1) colon-free pieces whose `:`-join is the value; the list is never empty |
| AlsaBuild.ParseLibsRoundTrip | alsa-sys/build.rs:60-61 | any non-empty list of colon-free library names is recovered exactly from its `:`-joined value |
| AlsaBuild.ExampleThreeLibs | alsa-sys/build.rs:59-63 | `"a:b:c"` gives `["a","b","c"]`, `""` gives `[""]`, unset gives `["asound"]` |
| AlsaBuild.HasStatic | alsa-sys/build.rs:89 | the per-library test holds iff one of `lib{l}.a`, `{l}.lib` is among the directory's file names |
| AlsaBuild.HasDylib | alsa-sys/build.rs:91-92 | the per-library test holds iff one of `lib{l}.so`, `{l}.dll`, `lib{l}.dylib` is among the directory's file names |
| AlsaBuild.AllStatic | alsa-sys/build.rs:88-89 | the front-to-back `all` is true iff every library has `lib{l}.a` or `{l}.lib` in the directory |
| AlsaBuild.AllDylib | alsa-sys/build.rs:90-93 | the front-to-back `all` is true iff every library has `lib{l}.so`, `{l}.dll` or `lib{l}.dylib` in the directory |
| AlsaBuild.Decide | alsa-sys/build.rs:75-107 | `ALSA_STATIC` equal to `"0"` gives dylib; any other UTF-8 value, the empty one included, gives static; with no usable override the result is static iff only the static artifacts are complete, dylib iff the dynamic ones are, and the panic iff neither is |
| AlsaBuild.EmptyLibsLinkDynamically | alsa-sys/build.rs:88-96 | with no usable override, an empty library list vacuously links dynamically |
| AlsaBuild.MoreFilesKeepDecision | alsa-sys/build.rs:88-107 | adding file names to the directory never turns a decision into the panic, and never changes a dylib decision |
| AlsaBuild.ExampleProbes | alsa-sys/build.rs:88-107 | `{libasound.so}` with `["asound"]` gives dylib; `{libasound.a, libextra.a, libasound.so}` with `["asound","extra"]` gives static |
| AlsaBuild.DetermineMode | alsa-sys/build.rs:73-108 | the mode is the decision over the looked-up `ALSA_STATIC` value and the directory; the printed lines are that lookup's rerun directives |
| AlsaBuild.EmitLinkLibs | alsa-sys/build.rs:66-68 | the loop prints one link directive per library, in list order, all of the given kind |
| AlsaBuild.Run | alsa-sys/build.rs:53-68 | the printed lines are link-search, include, the `ALSA_LIBS` reruns, the `ALSA_STATIC` reruns, then the link lines; the run panics exactly when the decision does |
| AlsaBuild.RunLinkDirectives | alsa-sys/build.rs:65-68 | a finished run prints exactly one link directive per library (at least one), in order and all of the decided kind; a panicked run prints none |

## Left out

- The `match` on the directory override pair in `main` (alsa-sys/build.rs:46-51) is not valid Rust. Its arms use method calls as patterns, one arm lacks a comma, and two arms are identical. It has no defined behaviour, so `Run` starts at line 53 with the library and include directories given. The lookups of `ALSA_LIB_DIR` and `ALSA_INCLUDE_DIR` on lines 43-44, and their rerun directives, are part of that unmodelled step.
- `pkg_config::find_library("alsa")` (line 50) is a call into another crate and is not part of this model.
- Reading the library directory (lines 81-87) is filesystem I/O. `Decide` takes the resulting set of UTF-8 file names as input. The `unwrap` panics on I/O errors are not modelled. Names that are not UTF-8 are simply absent from the set, as the `filter_map` drops them.
- Reading `TARGET` (line 30) and its `unwrap` panic when unset are not modelled. The target is a parameter.
- PrefixedNameShape: `to_uppercase` is modelled for ASCII letters only. Other characters are left unchanged, whereas Rust would uppercase them by the full Unicode rules. Target triples are ASCII.
- The exact text of the `cargo:` lines and of the panic messages is not modelled. Directives are values, and a panic is the `Unlinkable` / `Panicked` result.
- `OsValue.NonUtf8` stands for any value that `to_str()` rejects. Only the fact that it is not UTF-8 matters to the script. A non-UTF-8 `ALSA_STATIC` is treated as unset, so the directory is probed. A non-UTF-8 `ALSA_LIBS` gives the default list.

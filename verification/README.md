# sndfilter command-line driver, modelled in Dafny

`sndfilter` applies one named audio filter to a whole WAV file:

    sndfilter input.wav output.wav <filter> <params...>

This project models the decision and ownership logic of its driver, `src/main.c`. That logic has three parts:

- **Filter registry and dispatch.** Nine exact names, each with an arity. `lowpass`, `highpass`, `bandpass`, `notch` and `allpass` take 2 values. `peaking`, `lowshelf` and `highshelf` take 3. `compressor` takes 6.
- **Positional binding (`getargs`).** Value `j` comes from `argv[4 + j]` and goes through `atof`. Binding fails when `argc` is too small. Arguments after the last needed one are ignored.
- **Load → apply → save pipeline.** `filter2`, `filter3` and `filter6` are the same code with a different number of parameters, so they are modelled once as `Pipeline.Execute`. It covers the paired `sf_snd_free` calls and the exit codes.

The sound library, the WAV codec and `atof` are foreign code. They appear as the function fields of a `Pipeline.Library` value. So every property holds whatever those collaborators return, except the ownership lemmas, which assume `Pipeline.FreshResults` (each filter returns a new sound). A run is a pure function `Driver.Run(lib, argv)`. It returns the exit code of `main` and the trace of observable events:

- `Usage`: the help text, on stdout.
- `Diag(error)`: one error line, on stderr.
- `Load`, `Apply` and `Save`: calls into the library, together with their results.
- `Free(h)`: a call to `sf_snd_free`.
- `Exit(code)`: the value `main` returns.

Ownership of sound handles is judged by a checker that is defined apart from the driver: `Trace.Replay`. It keeps a multiset of the handles that are owned and not yet freed. The check fails on three things: using or freeing a handle that is not owned, and being handed (by a load or a filter) a handle that is already owned. A trace is `LeakFree` when the replay succeeds and nothing is owned at the end. `Trace.LeakFreeBalanced` proves what this means: every handle is freed exactly as many times as it was created.

`main` frees the input sound right after the filter call, then saves and frees the result. That is safe only because the sound library's filters return a new sound, never their input. The model states this promise as `Pipeline.FreshResults` and assumes it in the ownership lemmas. `Pipeline.ExecuteReturnedInput` shows what goes wrong without it.

Files (one module each): `options.dfy`, `filters.dfy`, `arguments.dfy`, `compressor.dfy` (module `CompressorAdapter`, the source's `compdefault`), `trace.dfy`, `pipeline.dfy`, `driver.dfy` (`main`), `scenarios.dfy` (concrete invocations).

## Model

| member | source | states |
|---|---|---|
| Filters.Arity | src/main.c:221-265 | the five frequency/Q biquads take 2 values, peaking and the two shelves take 3, and only the compressor takes 6 |
| Filters.Resolve | src/main.c:221-265 | a resolved filter's name is exactly the given name, and an unresolved name is the name of no filter |
| Filters.ResolveExact | src/main.c:221-265 | a name resolves to a filter iff it is exactly that filter's name, so names are distinct and there is no partial or case-insensitive match |
| Filters.ResolveTotal | src/main.c:221-269 | exactly the nine listed names resolve; every other name takes the "Bad filter" path |
| Arguments.BindFrom | src/main.c:91-124 | binding slots `from..k-1` succeeds iff `argc` reaches the last slot, and slot `j` holds the parse of `argv[4 + from + j]` |
| Arguments.Bind | src/main.c:91-124 | binding `k > 0` values succeeds iff `argc > 3 + k`; on success there are exactly `k` values and value `j` is the parse of `argv[4 + j]` |
| Arguments.BindIgnoresExtras | src/main.c:91-124 | arguments after index `3 + k` never affect the binding |
| CompressorAdapter.Override | src/main.c:200-210 | the six user fields of the record passed to the compressor are the six values in order (pregain, threshold, knee, ratio, attack, release); every other field keeps its default |
| CompressorAdapter.OverrideIgnoresDefaults | src/main.c:202-208 | no default of the six user fields survives: different defaults give the same user fields |
| CompressorAdapter.OverrideRoundTrip | src/main.c:202-208 | overriding a record with its own six user fields gives the record back |
| Pipeline.ApplyFilter | src/main.c:177-210 | a biquad gets the bound values as they are; the compressor gets the default record with the six values written into its six fields |
| Pipeline.Execute | src/main.c:132-152 | the exit code is 0 or 1; the first event is the one load of the input path, and nothing later loads again or prints help |
| Pipeline.ExecuteLeakFree | src/main.c:132-198 | if every filter returns a new sound: on all four exits, no handle is used or freed unless owned, none is handed out while owned, nothing stays owned, and each handle is created at most once and freed exactly as often as it is created |
| Pipeline.ExecuteFreedOnce | src/main.c:132-152 | if every filter returns a new sound, no handle is freed twice |
| Pipeline.ExecuteReturnedInput | src/main.c:139-146 | a filter that returns its own input makes the pipeline save a sound it has just freed and free it twice, and the ownership checker rejects the trace |
| Pipeline.ExecuteExitCode | src/main.c:132-152 | the code is 0 iff no diagnostic was written; a failing run writes exactly one diagnostic, as its last event |
| Pipeline.ExecuteHaltsAfterFailure | src/main.c:134-150 | no load, filter or save call follows a failed load, filter or save (the frees at lines 140 and 146 still happen) |
| Pipeline.ExecuteLoadFailure | src/main.c:134-138 | a failed load exits 1 with a "Failed to load" diagnostic naming the input, and makes no filter, save or free call |
| Pipeline.ExecuteApplyStage | src/main.c:139-144 | the event right after the filter call frees the input, whether or not the filter succeeded; a failed filter exits 1 with one diagnostic, never saves, and frees only the input, once |
| Pipeline.ExecuteSaveStage | src/main.c:145-151 | the event right after the save frees the output, whatever the save returned; the code is 1 iff the save failed, with a diagnostic naming the output; the only frees are one of the input handle and one of the output handle |
| Driver.Run | src/main.c:212-270 | `main` returns 0 or 1, and the trace ends with `Exit` carrying that code |
| Driver.RunShape | src/main.c:212-265 | help comes first iff there are fewer than 4 arguments or the name is unknown; a load comes first iff the name is known and enough values follow it |
| Driver.RunHelp | src/main.c:213-214 | fewer than 4 arguments: help, exit 0, no diagnostic, and no load, filter, save or free |
| Driver.RunBadFilter | src/main.c:267-269 | an unknown name: help, then one "Bad filter" diagnostic naming it, exit 1, and no sound work |
| Driver.RunBadArguments | src/main.c:126-129 | a known filter with too few values: one "Bad arguments" diagnostic naming the filter, exit 1, no help, and no sound work |
| Driver.RunDispatch | src/main.c:221-265 | with enough values, `main` runs the pipeline for the resolved filter on `argv[1]` and `argv[2]` with the values in argument order, and returns the pipeline's code |
| Driver.RunCompressor | src/main.c:261-264 | `compressor` calls the compressor on the loaded sound with pregain..release set from `argv[4..9]` in order and the other fields left at their defaults |
| Driver.RunIgnoresExtras | src/main.c:221-265 | a run with extra trailing arguments equals the run without them |
| Driver.RunOwnership | src/main.c:212-270 | if every filter returns a new sound, then on every path of `main`: leak-free, each handle created at most once and freed exactly as often, no load, filter or save after a failure, code 0 iff no diagnostic, and exactly one diagnostic when the code is 1 |
| Driver.RefusedOwnership | src/main.c:213-269 | the paths that stop before loading do no sound work and write at most one diagnostic, exactly when the code is 1 |
| Scenarios.LowpassScenario | src/main.c:221-225 | `in.wav out.wav lowpass 1000 0.5` loads once, filters once with (1000, 0.5), saves the result once, frees each sound once, and exits 0 |
| Scenarios.PeakingMissingScenario | src/main.c:241-243 | `a b peaking 1000 1` (two of three values) exits 1 with one "Bad arguments" diagnostic naming `peaking`, and loads, filters, saves and frees nothing |
| Scenarios.StubOwnership | src/main.c:132-270 | a library whose filters return new sounds keeps the promise, so every run with it is leak-free and frees each sound at most once |

## Left out

- `printhelp` / `printabout`: their text is presentation only. The model records just that help was printed. It is a `Usage` event, and it goes to stdout.
- The wording of the stderr messages: only the error kind and the name or path it carries are modelled.
- `atof` and float semantics: values have an abstract type, produced by the library's `parse`. Malformed text therefore parses to whatever `parse` returns. The real `atof` converts the longest leading numeric prefix (`"1.5x"` gives 1.5) and gives 0.0 only when there is none.
- `sf_lowpass` … `sf_highshelf`, `sf_compressor`, `sf_compressor_defaults`, `sf_wavload`, `sf_wavsave` and `sf_snd_free`: they live in headers that are not part of this model. They are fields of `Pipeline.Library`, and `sf_snd_free` is a `Free` event.
- `sf_compressor_params_st` has more fields than the six that `compdefault` sets. Its header is not part of this model, so those fields are one opaque `others` sequence that keeps its default.
- C memory details: argument strings are assumed valid, and `argc` equals the number of arguments.
- Pipeline.ExecuteLeakFree, Pipeline.ExecuteFreedOnce, Driver.RunOwnership: these assume `Pipeline.FreshResults`, the sound library's promise that a filter returns a new sound. The filters' code is not part of this model, so the promise cannot be proved here.
- Arguments.Bind: the case `k == 0` is not characterised. `main` never asks for zero values, and `getargs` has only six output slots, hence `k <= 6`.

## Behaviour of `main` worth knowing

- `main` accepts more values than a filter's arity and ignores the extras (`Driver.RunIgnoresExtras`).
- `printhelp` writes with `printf` (src/main.c:22-24), so on the bad-filter path (src/main.c:267-268) the help text goes to stdout, before the error line on stderr. The model's `Usage` event always means stdout.

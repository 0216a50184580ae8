# nova:tools:publish — a Dafny model of the asset bundling command

The Artisan command `nova:tools:publish` combines the scripts and styles that
Nova tools register into one script file and one style file under the public
directory. It runs in these steps:

1. It boots every registered tool. An exception thrown by a tool's `boot()` is
   caught and dropped, so the other tools are still booted.
2. It handles the two categories `allScripts` and `allStyles`, in that order.
   Each starts from an empty buffer.
3. For each asset of a category, in registry order, it works out the path to
   read. A remote asset whose path is not already URL-like goes through
   `public_path`.
4. It reads that path. If the path is URL-like (it starts with `http://`,
   `https://` or `://`), the read is an HTTP GET. Otherwise it is a local
   `file_get_contents`. A result that is not a string becomes `null`.
5. If the result is PHP-truthy, the command appends `trim(result) . PHP_EOL`
   to the buffer.
6. A category's output file is written only when its buffer is truthy. The
   write replaces the whole file.

Files:

- `php_runtime.dfy` (module `PhpRuntime`) holds the parts of PHP the command
  relies on:
  - `?string` as `Option<string>`, and the mixed result of an I/O call as
    `PhpValue`;
  - string truthiness;
  - `trim` with its default character set (space, `\t`, `\n`, `\r`, `\0`,
    `\x0B`);
  - Laravel's multi-needle `Str::startsWith`.
- `bundler.dfy` (module `Bundler`) holds the command itself:
  - `IsUrl`, `EffectivePath` and `ReadFile` for choosing the path and the
    read;
  - a category's buffer as a specification (`Reads`, `Pieces`, `Concat`,
    `Buffer`, `Bundle`);
  - the effect on the file map (`WriteIfTruthy`, `PublishCategories`,
    `Publish`);
  - the classes `Filesystem` (a map from path to content, written through
    `Put`) and `PublishCommand`. `PublishCommand` has `BootTools`, the inner
    asset loop `ReadAssets` and `Handle`.

`Env` collects the collaborators the command calls but does not define.
`publicPath` stands for `public_path`. `httpGet` stands for the body of
`Http::withoutVerifying()->get($path)`. `fileGetContents` stands for what
`@file_get_contents` returns. `scriptConfig` and `styleConfig` are the two
configured output paths. They are parameters, so every property below holds
whatever they do. `PHP_EOL` is fixed to `"\n"`, and `Command::SUCCESS` is 0.

An empty read (`""`) and a read of `"0"` are falsy in PHP. The guard
`if ($result)` drops them exactly like a failed read: they add nothing to the
buffer, not even a line feed. The model follows this code behaviour
(`FalsyReadContributesNothing`). A read that holds only trimmable characters is
truthy and adds a bare line feed (`BlankReadContributesEol`).

## Model

| member | source | states |
|---|---|---|
| `PhpRuntime.IsTruthy` | src/Commands/PublishCommand.php:52 | definition: PHP truthiness of a string (only "" and "0" are falsy); what it means for the buffer is stated by `Bundler.BufferTruthyIffNonEmpty` |
| `PhpRuntime.IsTruthyNullable` | src/Commands/PublishCommand.php:42 | definition: `null` is falsy, a string as `IsTruthy`; specified through `Bundler.ContributionShape` and `Bundler.FalsyReadContributesNothing` |
| `PhpRuntime.TrimLeft` | src/Commands/PublishCommand.php:43 | definition: drops the leading run of trimmable characters; specified by `PhpRuntime.TrimLeftCuts` |
| `PhpRuntime.TrimRight` | src/Commands/PublishCommand.php:43 | definition: drops the trailing run of trimmable characters; specified by `PhpRuntime.TrimRightCuts` |
| `PhpRuntime.Trim` | src/Commands/PublishCommand.php:43 | definition: `rtrim(ltrim(s))`; specified by `PhpRuntime.TrimEdges`, `PhpRuntime.TrimIsInfix`, `PhpRuntime.TrimEmptyIffBlank`, `PhpRuntime.TrimStripsPadding` and `PhpRuntime.TrimIdempotent` |
| `PhpRuntime.StartsWithAny` | src/Commands/PublishCommand.php:84 | definition: the needles tried in order; specified by `PhpRuntime.StartsWithAnyIff` |
| `PhpRuntime.AsNullableString` | src/Commands/PublishCommand.php:102-106 | the result is non-null exactly when the I/O result is a string, and then it is that string |
| `PhpRuntime.TrimLeftCuts` | src/Commands/PublishCommand.php:43 | the left part of `trim` keeps a suffix that does not start with a trimmable character and removes only trimmable characters |
| `PhpRuntime.TrimRightCuts` | src/Commands/PublishCommand.php:43 | the right part of `trim` keeps a prefix that does not end with a trimmable character and removes only trimmable characters |
| `PhpRuntime.TrimEdges` | src/Commands/PublishCommand.php:43 | the trimmed content is no longer than the read and neither starts nor ends with a trimmable character |
| `PhpRuntime.TrimIsInfix` | src/Commands/PublishCommand.php:43 | the trimmed content is an infix of the read, and both cut-off ends consist only of trimmable characters |
| `PhpRuntime.TrimOfTrimmed` | src/Commands/PublishCommand.php:43 | content without trimmable characters at its ends is appended unchanged |
| `PhpRuntime.TrimIdempotent` | src/Commands/PublishCommand.php:43 | trimming twice is the same as trimming once |
| `PhpRuntime.TrimEmptyIffBlank` | src/Commands/PublishCommand.php:43 | the trimmed content is empty exactly when the read consists only of trimmable characters |
| `PhpRuntime.TrimStripsPadding` | src/Commands/PublishCommand.php:43 | any runs of trimmable characters around a core are removed, and the core comes back unchanged |
| `PhpRuntime.StartsWithAnyIff` | src/Commands/PublishCommand.php:84 | the multi-needle prefix test holds exactly when some needle is a prefix of the haystack |
| `Bundler.IsUrl` | src/Commands/PublishCommand.php:82-85 | definition: `StartsWithAny(path, UrlPrefixes)`; specified by `Bundler.IsUrlIff`, `Bundler.ShortPathNoUrl`, `Bundler.NoSeparatorNoUrl` and `Bundler.PlainFirstCharNoUrl` |
| `Bundler.EffectivePath` | src/Commands/PublishCommand.php:33-37 | definition: the path after the remote rewrite; specified by `Bundler.RemoteUrlFetchedAsIs`, `Bundler.RemotePathCheckedAfterRewrite` and `Bundler.LocalAssetKeepsPath` |
| `Bundler.ReadFile` | src/Commands/PublishCommand.php:95-107 | definition: HTTP or local read, then the `is_string` mapping; specified by `Bundler.ReadDispatch` and `PhpRuntime.AsNullableString` |
| `Bundler.Resolve` | src/Commands/PublishCommand.php:33-40 | definition: the read of an asset's effective path; specified by `Bundler.ReadDispatch` |
| `Bundler.Contribution` | src/Commands/PublishCommand.php:42-46 | definition: what one read result appends; specified by `Bundler.ContributionShape`, `Bundler.FalsyReadContributesNothing` and `Bundler.BlankReadContributesEol` |
| `Bundler.Concat` | src/Commands/PublishCommand.php:43 | definition: the `.=` fold over the appended parts; specified by `Bundler.ConcatAppend`, `Bundler.ConcatEmptyIff` and `Bundler.ConcatEndsWithEol` |
| `Bundler.Bundle` | src/Commands/PublishCommand.php:28-50 | definition: the buffer `$content` after one category's loop; specified by `Bundler.BundleIsJoinedReads`, `Bundler.BundleEmptyIffNoneContributes`, `Bundler.BundleAppend` and `Bundler.BundleSkipsFailed`, and computed by `Bundler.PublishCommand.ReadAssets` |
| `Bundler.AssetsOf` | src/Commands/PublishCommand.php:31 | definition: `Nova::{$method}()` picks the registry's script or style list |
| `Bundler.WriteIfTruthy` | src/Commands/PublishCommand.php:52-56 | definition: put the buffer only when it is truthy; specified by `Bundler.PublishScriptFile`, `Bundler.PublishStyleFile`, `Bundler.PublishSharedOutput` and `Bundler.PublishLeavesOtherFiles` |
| `Bundler.PublishCategories` | src/Commands/PublishCommand.php:27-59 | definition: the category loop as a fold over the file map; specified by `Bundler.PublishUnfold` and computed by `Bundler.PublishCommand.Handle` |
| `Bundler.Publish` | src/Commands/PublishCommand.php:27-59 | definition: the category loop over `Methods`; specified by `Bundler.PublishUnfold`, `Bundler.PublishScriptFile`, `Bundler.PublishStyleFile`, `Bundler.PublishSharedOutput`, `Bundler.PublishLeavesOtherFiles` and `Bundler.PublishIdempotent` |
| `Bundler.ToolList` | src/Commands/PublishCommand.php:66-67 | definition: `if (Nova::$tools)` treats null and an empty list alike; used in the contract of `Bundler.PublishCommand.BootTools` |
| `Bundler.IsUrlIff` | src/Commands/PublishCommand.php:82-85 | a path is URL-like exactly when it starts with `http://`, `https://` or `://` |
| `Bundler.ShortPathNoUrl` | src/Commands/PublishCommand.php:82-85 | the empty path, and any path shorter than three characters, is not URL-like |
| `Bundler.NoSeparatorNoUrl` | src/Commands/PublishCommand.php:82-85 | a path in which "://" occurs nowhere is not URL-like |
| `Bundler.PlainFirstCharNoUrl` | src/Commands/PublishCommand.php:82-85 | a path whose first character is neither `h` nor `:` is not URL-like |
| `Bundler.RemoteUrlFetchedAsIs` | src/Commands/PublishCommand.php:33-37 | a remote asset whose path is already URL-like keeps its path, which is never passed to `public_path`, and is fetched over HTTP |
| `Bundler.RemotePathCheckedAfterRewrite` | src/Commands/PublishCommand.php:33-37 | a remote asset with a non-URL path is read from `public_path(path)`; the URL test is then applied again to that rewritten path to choose between HTTP and a local read |
| `Bundler.LocalAssetKeepsPath` | src/Commands/PublishCommand.php:33-37 | an asset not flagged remote keeps its path, and a URL-like path is still fetched over HTTP |
| `Bundler.ReadDispatch` | src/Commands/PublishCommand.php:95-107 | the read is an HTTP GET (never null) exactly when the effective path is URL-like, and otherwise the local read mapped to null unless it is a string |
| `Bundler.ContributionShape` | src/Commands/PublishCommand.php:40-47 | a read result adds something exactly when it is truthy; what it adds is its trimmed text followed by a line feed |
| `Bundler.FalsyReadContributesNothing` | src/Commands/PublishCommand.php:42 | a read of `""` or `"0"`, like a failed read, adds nothing |
| `Bundler.BlankReadContributesEol` | src/Commands/PublishCommand.php:42-43 | a non-empty read made only of trimmable characters adds a bare line feed |
| `Bundler.ConcatAppend` | src/Commands/PublishCommand.php:43 | appending with `.=` is associative: the parts of two runs concatenate to the two results in order |
| `Bundler.ConcatEmptyIff` | src/Commands/PublishCommand.php:43 | appended parts give "" exactly when every part is "" |
| `Bundler.ConcatEndsWithEol` | src/Commands/PublishCommand.php:43 | if every non-empty part ends with a line feed, a non-empty result does too |
| `Bundler.BufferEmptyIffNoneTruthy` | src/Commands/PublishCommand.php:28-50 | the buffer is empty exactly when no read result is truthy |
| `Bundler.BufferEndsWithEol` | src/Commands/PublishCommand.php:28-50 | a non-empty buffer ends with a line feed |
| `Bundler.BufferAppend` | src/Commands/PublishCommand.php:28-50 | the buffer of two runs of read results is the first run's buffer followed by the second's |
| `Bundler.BufferIsJoinedTruthy` | src/Commands/PublishCommand.php:28-50 | the buffer is the truthy read results, in their original order, each trimmed and followed by a line feed |
| `Bundler.BundleEmptyIffNoneContributes` | src/Commands/PublishCommand.php:28-50 | a category's buffer is empty exactly when none of its assets contributes |
| `Bundler.BundleAppend` | src/Commands/PublishCommand.php:31-50 | the buffer of two asset lists, one after the other, is the first list's buffer followed by the second's |
| `Bundler.BundleSingle` | src/Commands/PublishCommand.php:31-50 | a category with a single asset has as its buffer exactly that asset's contribution |
| `Bundler.BundlePair` | src/Commands/PublishCommand.php:31-50 | a category with two assets has as its buffer the first asset's contribution followed by the second's |
| `Bundler.BundleSkipsFailed` | src/Commands/PublishCommand.php:39-49 | an asset that does not contribute can be removed from anywhere in the list without changing the buffer; the rest keep their order |
| `Bundler.BundleIsJoinedReads` | src/Commands/PublishCommand.php:28-50 | a category's buffer is the trimmed truthy reads of its assets in registry order, each followed by a line feed |
| `Bundler.BufferTruthyIffNonEmpty` | src/Commands/PublishCommand.php:52 | the buffer is never "0", so `if ($content)` holds exactly when the buffer is non-empty |
| `Bundler.FailedAssetSkippedInOrder` | src/Commands/PublishCommand.php:31-50 | for assets A, B, C where B's read fails and A and C read "a" and "c", the buffer is "a\nc\n" |
| `Bundler.TwoScriptsBundle` | src/Commands/PublishCommand.php:31-50 | a local "  var a=1;  " followed by a remote "var b=2;" gives the buffer "var a=1;\nvar b=2;\n" |
| `Bundler.TwoScriptsScenario` | src/Commands/PublishCommand.php:27-58 | with those two scripts and no styles, the script output file ends up holding "var a=1;\nvar b=2;\n" |
| `Bundler.Methods` | src/Commands/PublishCommand.php:87-93 | there are exactly two categories, scripts then styles, and each output path is the configured path passed through `public_path` |
| `Bundler.PublishUnfold` | src/Commands/PublishCommand.php:27-59 | the category loop writes the script bundle if it is truthy and then the style bundle if it is truthy |
| `Bundler.PublishScriptFile` | src/Commands/PublishCommand.php:27-58 | with distinct output paths, the script file holds the script buffer when some script contributes, and otherwise is exactly as before (present or absent) |
| `Bundler.PublishStyleFile` | src/Commands/PublishCommand.php:27-58 | with distinct output paths, the style file holds the style buffer when some style contributes, and otherwise is exactly as before (present or absent) |
| `Bundler.PublishSharedOutput` | src/Commands/PublishCommand.php:27-58 | when both categories share an output path, the styles are written last and win; an empty buffer never overwrites |
| `Bundler.PublishLeavesOtherFiles` | src/Commands/PublishCommand.php:52-56 | no file other than the two output files is created or changed |
| `Bundler.PublishIdempotent` | src/Commands/PublishCommand.php:27-59 | a second run on unchanged inputs leaves the same files as the first |
| `Bundler.Filesystem.Put` | src/Commands/PublishCommand.php:55 | the file at the output path afterwards holds exactly the buffer, and no other file changes |
| `Bundler.PublishCommand.BootTools` | src/Commands/PublishCommand.php:64-80 | `boot()` is attempted on every tool, in order, whatever earlier tools threw; nothing is attempted for a null or empty list |
| `Bundler.PublishCommand.ReadAssets` | src/Commands/PublishCommand.php:31-50 | the loop over a category's assets leaves the buffer equal to the category's specified buffer |
| `Bundler.PublishCommand.Handle` | src/Commands/PublishCommand.php:22-62 | every tool is booted; the file map afterwards is the specified result of both categories applied to the old map; the return value is always `SUCCESS` |

## Left out

- `ServingNova::dispatch(new Request())` (line 24) is not modelled. It is a framework event that fills the registry, and the registry's lists are parameters here.
- The static registry itself (`Nova::$tools`, `Nova::allScripts()`, `Nova::allStyles()`) is not modelled as global state. The tool list is an `Option<seq<Tool>>`, where `None` is `null`. The asset lists form a `Registry` value.
- A tool's `boot()` is represented only by its outcome, `Booted` or `Threw`. `PublishCommand.booted` records the calls in order. What a boot does to the tool is not modelled.
- `registry` is the pair of asset lists as `Nova::allScripts()` and `Nova::allStyles()` return them at line 31, after the tools have booted at line 25. The model does not connect these lists to what `boot()` registers.
- The reads do not see the command's own writes. `Env.fileGetContents` is one fixed function for the whole run and is separate from `Filesystem.files`. Two cases are therefore not modelled: a style asset whose path is the script output written at line 55 moments earlier, and an output file left by an earlier run that is read again as an asset. The ensures of `Handle` and `PublishIdempotent` rely on this separation.
- The HTTP client and `file_get_contents` are not modelled. They are the functions `Env.httpGet` and `Env.fileGetContents`. Connection errors thrown by the HTTP client are not modelled: an HTTP read always yields a string.
- `public_path` and `config(...)` are not modelled. They are `Env.publicPath`, `Env.scriptConfig` and `Env.styleConfig`, with no assumption about their values.
- `Filesystem::ensureDirectoryExists` (line 54) is not modelled: there are no directories in the file map. Write failures, which would end the run, are not modelled either.
- Console output is not modelled. This covers `components->task`, `line('')` and the `file_exists($path)` value at line 48, which only sets the displayed task status.
- The `(string)` cast of `$file->path()` (line 33) is not modelled: asset paths are strings already.
- `PHP_EOL` is fixed to `"\n"`. PHP strings are bytes; the model uses characters, and every character that `trim` and the URL test look at is a single byte.
- Laravel's `Str::startsWith` is not part of this model. `StartsWithAny` stands for it with "some needle is a prefix of the haystack". This agrees with Laravel for the three non-empty needles used here.

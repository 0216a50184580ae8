/**
 * The `nova:tools:publish` command: boot every registered tool, then for the
 * script and the style category read every registered asset (over HTTP when
 * its path looks like a URL, from the local disk otherwise), concatenate the
 * trimmed contents of the successful reads in registry order, and write the
 * bundle to the category's output file when it is not empty.
 *
 * The framework collaborators are parameters: `public_path`, the HTTP
 * client's response body, `file_get_contents` and the two configured output
 * paths are fields of `Env`; the registry's asset lists form a `Registry`.
 */
module Bundler {
  import opened PhpRuntime

  /** `PHP_EOL`, fixed to a line feed. */
  const Eol: string := "\n"

  /** Symfony's `Command::SUCCESS`. */
  const Success: int := 0

  /** The prefixes that make a path URL-like, in the order they are tried. */
  const UrlPrefixes: seq<string> := ["http://", "https://", "://"]

  /** A registered script or style: its display name, its path and the registrant's remote flag. */
  datatype Asset = Asset(name: string, path: string, isRemote: bool)

  /** The registry's two asset lists, `Nova::allScripts()` and `Nova::allStyles()`. */
  datatype Registry = Registry(scripts: seq<Asset>, styles: seq<Asset>)

  /** The registry accessor a category reads its assets from. */
  datatype RegistryMethod = AllScripts | AllStyles

  /** One entry of the command's category table: accessor, file type and output path. */
  datatype Category = Category(accessor: RegistryMethod, fileType: string, outputPath: string)

  /**
   * The framework and the outside world as the command sees them.
   * `publicPath` is `public_path`, `httpGet` the body of an HTTP GET without
   * certificate verification, `fileGetContents` what `@file_get_contents`
   * returns, and `scriptConfig`/`styleConfig` the configured output paths.
   */
  datatype Env = Env(
    publicPath: string -> string,
    httpGet: string -> string,
    fileGetContents: string -> PhpValue,
    scriptConfig: string,
    styleConfig: string)

  /** What a tool's `boot()` does: return normally or throw. */
  datatype BootOutcome = Booted | Threw(error: string)

  /** A registered tool, identified by its class name, with the outcome of its `boot()`. */
  datatype Tool = Tool(name: string, boot: BootOutcome)

  // ---------------------------------------------------------------------
  // Paths and reads

  /** `isUrl`: `Str::startsWith($path, ['http://', 'https://', '://'])`. */
  function IsUrl(path: string): bool
  {
    StartsWithAny(path, UrlPrefixes)
  }

  /** A path is URL-like exactly when it starts with `http://`, `https://` or `://`. */
  lemma IsUrlIff(path: string)
    ensures IsUrl(path) <==> StartsWith(path, "http://") || StartsWith(path, "https://") || StartsWith(path, "://")
  {
    StartsWithAnyIff(path, UrlPrefixes);
    assert UrlPrefixes[0] == "http://" && UrlPrefixes[1] == "https://" && UrlPrefixes[2] == "://";
  }

  /** The empty path, and any path shorter than "://", is not URL-like. */
  lemma ShortPathNoUrl(path: string)
    requires |path| < 3
    ensures !IsUrl(path)
  {
    IsUrlIff(path);
  }

  /** Whether "://" occurs in `path` at index `i`. */
  predicate SeparatorAt(path: string, i: int)
  {
    0 <= i && i + 3 <= |path| && path[i..i + 3] == "://"
  }

  /** A path in which "://" occurs nowhere is never URL-like. */
  lemma NoSeparatorNoUrl(path: string)
    requires forall i :: !SeparatorAt(path, i)
    ensures !IsUrl(path)
  {
    IsUrlIff(path);
    if StartsWith(path, "http://") {
      assert path[4..7] == path[..7][4..7];
      assert SeparatorAt(path, 4);
    } else if StartsWith(path, "https://") {
      assert path[5..8] == path[..8][5..8];
      assert SeparatorAt(path, 5);
    } else if StartsWith(path, "://") {
      assert SeparatorAt(path, 0);
    }
  }

  /** A path that starts with neither 'h' nor ':' is not URL-like. */
  lemma PlainFirstCharNoUrl(path: string)
    requires path != [] && path[0] != 'h' && path[0] != ':'
    ensures !IsUrl(path)
  {
    IsUrlIff(path);
  }

  /**
   * The path an asset is read from: a remote asset whose path is not already
   * URL-like is resolved through `public_path`; every other path is kept.
   */
  function EffectivePath(env: Env, a: Asset): string
  {
    if a.isRemote && !IsUrl(a.path) then env.publicPath(a.path) else a.path
  }

  /**
   * `readFile`: an HTTP GET when the path is URL-like, a local read otherwise;
   * anything that is not a string becomes `null`.
   */
  function ReadFile(env: Env, path: string): Option<string>
  {
    var result := if IsUrl(path) then Str(env.httpGet(path)) else env.fileGetContents(path);
    AsNullableString(result)
  }

  /** The result of reading one asset, as the command's task closure sees it. */
  function Resolve(env: Env, a: Asset): Option<string>
  {
    ReadFile(env, EffectivePath(env, a))
  }

  /** Whether an asset adds to its category's buffer: its read result is truthy. */
  predicate Contributes(env: Env, a: Asset)
  {
    IsTruthyNullable(Resolve(env, a))
  }

  /**
   * The retrieval is chosen by the shape of the effective path, not by the
   * remote flag: URL-like means HTTP (which always yields a string), anything
   * else means the local file.
   */
  lemma ReadDispatch(env: Env, a: Asset)
    ensures var p := EffectivePath(env, a);
      && (IsUrl(p) ==> Resolve(env, a) == Some(env.httpGet(p)))
      && (!IsUrl(p) ==> Resolve(env, a) == AsNullableString(env.fileGetContents(p)))
  {
  }

  /** A remote asset that already has a URL is fetched as it is, never through `public_path`. */
  lemma RemoteUrlFetchedAsIs(env: Env, a: Asset)
    requires a.isRemote && IsUrl(a.path)
    ensures EffectivePath(env, a) == a.path
    ensures Resolve(env, a) == Some(env.httpGet(a.path))
  {
  }

  /**
   * A remote asset with a plain path is resolved through `public_path` first,
   * and the URL test is applied again to the result: when `public_path` yields
   * a URL the asset is fetched over HTTP, otherwise it is read from disk.
   */
  lemma RemotePathCheckedAfterRewrite(env: Env, a: Asset)
    requires a.isRemote && !IsUrl(a.path)
    ensures EffectivePath(env, a) == env.publicPath(a.path)
    ensures var p := env.publicPath(a.path);
      && (IsUrl(p) ==> Resolve(env, a) == Some(env.httpGet(p)))
      && (!IsUrl(p) ==> Resolve(env, a) == AsNullableString(env.fileGetContents(p)))
  {
  }

  /**
   * An asset that is not flagged remote keeps its path, and is still fetched
   * over HTTP when that path is URL-like.
   */
  lemma LocalAssetKeepsPath(env: Env, a: Asset)
    requires !a.isRemote
    ensures EffectivePath(env, a) == a.path
    ensures IsUrl(a.path) ==> Resolve(env, a) == Some(env.httpGet(a.path))
    ensures !IsUrl(a.path) ==> Resolve(env, a) == AsNullableString(env.fileGetContents(a.path))
  {
  }

  // ---------------------------------------------------------------------
  // One category's buffer

  /**
   * What one read result appends to the buffer: `trim($result) . PHP_EOL`
   * when the result is truthy, nothing otherwise.
   */
  function Contribution(result: Option<string>): string
  {
    if IsTruthyNullable(result) then Trim(result.value) + Eol else ""
  }

  /**
   * A read result adds something exactly when it is truthy, and then it adds
   * its trimmed text closed by a line feed.
   */
  lemma ContributionShape(result: Option<string>)
    ensures Contribution(result) != "" <==> IsTruthyNullable(result)
    ensures var c := Contribution(result);
      c != "" ==> c[|c| - 1] == '\n' && c[..|c| - 1] == Trim(result.value)
  {
  }

  /** The read results of `assets`, in registry order. */
  function Reads(env: Env, assets: seq<Asset>): seq<Option<string>>
  {
    seq(|assets|, i requires 0 <= i < |assets| => Resolve(env, assets[i]))
  }

  /** What each read result appends, in order. */
  function Pieces(results: seq<Option<string>>): seq<string>
  {
    seq(|results|, i requires 0 <= i < |results| => Contribution(results[i]))
  }

  /** The string built by appending `parts` one after the other with `.=`. */
  function Concat(parts: seq<string>): string
    decreases |parts|
  {
    if parts == [] then "" else Concat(parts[..|parts| - 1]) + parts[|parts| - 1]
  }

  /** The buffer built from a sequence of read results. */
  function Buffer(results: seq<Option<string>>): string
  {
    Concat(Pieces(results))
  }

  /** The buffer `$content` after the loop over a category's `assets`. */
  function Bundle(env: Env, assets: seq<Asset>): string
  {
    Buffer(Reads(env, assets))
  }

  /** Appending two runs of parts gives the two strings one after the other. */
  lemma {:induction false} ConcatAppend(xs: seq<string>, ys: seq<string>)
    ensures Concat(xs + ys) == Concat(xs) + Concat(ys)
    decreases |ys|
  {
    if ys == [] {
      assert xs + ys == xs;
    } else {
      var init := ys[..|ys| - 1];
      var all := xs + ys;
      assert all[..|all| - 1] == xs + init && all[|all| - 1] == ys[|ys| - 1];
      ConcatAppend(xs, init);
    }
  }

  /** Appending parts gives "" exactly when every part is "". */
  lemma {:induction false} ConcatEmptyIff(parts: seq<string>)
    ensures Concat(parts) == "" <==> forall i | 0 <= i < |parts| :: parts[i] == ""
    decreases |parts|
  {
    if parts != [] {
      var init := parts[..|parts| - 1];
      ConcatEmptyIff(init);
      assert forall i | 0 <= i < |init| :: init[i] == parts[i];
    }
  }

  /** When every non-empty part ends with a line feed, so does every non-empty result. */
  lemma {:induction false} ConcatEndsWithEol(parts: seq<string>)
    requires forall i | 0 <= i < |parts| :: parts[i] == "" || parts[i][|parts[i]| - 1] == '\n'
    ensures Concat(parts) == "" || Concat(parts)[|Concat(parts)| - 1] == '\n'
    decreases |parts|
  {
    if parts != [] {
      var init := parts[..|parts| - 1];
      assert forall i | 0 <= i < |init| :: init[i] == parts[i];
      ConcatEndsWithEol(init);
    }
  }

  /** The buffer is empty exactly when no read result is truthy. */
  lemma BufferEmptyIffNoneTruthy(results: seq<Option<string>>)
    ensures Buffer(results) == "" <==> forall i | 0 <= i < |results| :: !IsTruthyNullable(results[i])
  {
    var ps := Pieces(results);
    ConcatEmptyIff(ps);
    forall i | 0 <= i < |results| ensures ps[i] == "" <==> !IsTruthyNullable(results[i]) {
      ContributionShape(results[i]);
    }
  }

  /** A non-empty buffer ends with a line feed. */
  lemma BufferEndsWithEol(results: seq<Option<string>>)
    ensures Buffer(results) == "" || Buffer(results)[|Buffer(results)| - 1] == '\n'
  {
    var ps := Pieces(results);
    forall i | 0 <= i < |ps| ensures ps[i] == "" || ps[i][|ps[i]| - 1] == '\n' {
      ContributionShape(results[i]);
    }
    ConcatEndsWithEol(ps);
  }

  /** The buffer of a concatenation is the concatenation of the buffers. */
  lemma BufferAppend(xs: seq<Option<string>>, ys: seq<Option<string>>)
    ensures Buffer(xs + ys) == Buffer(xs) + Buffer(ys)
  {
    assert Pieces(xs + ys) == Pieces(xs) + Pieces(ys);
    ConcatAppend(Pieces(xs), Pieces(ys));
  }

  /** One read result's buffer is its contribution. */
  lemma BufferSingle(r: Option<string>)
    ensures Buffer([r]) == Contribution(r)
  {
    var ps := Pieces([r]);
    assert ps == [Contribution(r)] && ps[..0] == [];
    assert Concat(ps) == Concat(ps[..0]) + ps[0];
  }

  lemma ReadsAppend(env: Env, xs: seq<Asset>, ys: seq<Asset>)
    ensures Reads(env, xs + ys) == Reads(env, xs) + Reads(env, ys)
  {
  }

  /** The buffer is empty exactly when no asset contributes. */
  lemma BundleEmptyIffNoneContributes(env: Env, assets: seq<Asset>)
    ensures Bundle(env, assets) == "" <==> forall i | 0 <= i < |assets| :: !Contributes(env, assets[i])
  {
    var rs := Reads(env, assets);
    BufferEmptyIffNoneTruthy(rs);
    assert forall i | 0 <= i < |assets| :: rs[i] == Resolve(env, assets[i]);
  }

  /** The buffer of a concatenation of asset lists is the concatenation of their buffers. */
  lemma BundleAppend(env: Env, xs: seq<Asset>, ys: seq<Asset>)
    ensures Bundle(env, xs + ys) == Bundle(env, xs) + Bundle(env, ys)
  {
    ReadsAppend(env, xs, ys);
    BufferAppend(Reads(env, xs), Reads(env, ys));
  }

  /** A single asset's buffer is its contribution. */
  lemma BundleSingle(env: Env, a: Asset)
    ensures Bundle(env, [a]) == Contribution(Resolve(env, a))
  {
    assert Reads(env, [a]) == [Resolve(env, a)];
    BufferSingle(Resolve(env, a));
  }

  /** Two assets' buffer is their contributions, first then second. */
  lemma BundlePair(env: Env, a: Asset, b: Asset)
    ensures Bundle(env, [a, b]) == Contribution(Resolve(env, a)) + Contribution(Resolve(env, b))
  {
    assert [a] + [b] == [a, b];
    BundleAppend(env, [a], [b]);
    BundleSingle(env, a);
    BundleSingle(env, b);
  }

  /** An asset whose read fails or is falsy is skipped without disturbing the others. */
  lemma BundleSkipsFailed(env: Env, xs: seq<Asset>, a: Asset, ys: seq<Asset>)
    requires !Contributes(env, a)
    ensures Bundle(env, xs + [a] + ys) == Bundle(env, xs + ys)
  {
    BundleAppend(env, xs + [a], ys);
    BundleAppend(env, xs, [a]);
    BundleSingle(env, a);
    BundleAppend(env, xs, ys);
  }

  /** The truthy read results, in their original order. */
  function Truthy(results: seq<Option<string>>): seq<string>
  {
    if results == [] then []
    else (if IsTruthyNullable(results[0]) then [results[0].value] else []) + Truthy(results[1..])
  }

  /** Each content trimmed and followed by a line feed, joined in order. */
  function Joined(contents: seq<string>): string
  {
    if contents == [] then "" else Trim(contents[0]) + Eol + Joined(contents[1..])
  }

  /**
   * Ordering: the buffer is the trimmed truthy read results, each closed by a
   * line feed, in their original order; failed and falsy reads leave no trace.
   */
  lemma {:induction false} BufferIsJoinedTruthy(results: seq<Option<string>>)
    ensures Buffer(results) == Joined(Truthy(results))
    decreases |results|
  {
    if results != [] {
      var r, rest := results[0], results[1..];
      assert results == [r] + rest;
      BufferAppend([r], rest);
      BufferSingle(r);
      BufferIsJoinedTruthy(rest);
      if IsTruthyNullable(r) {
        var t := [r.value] + Truthy(rest);
        assert Truthy(results) == t;
        assert t[0] == r.value && t[1..] == Truthy(rest);
      } else {
        assert Truthy(results) == Truthy(rest);
      }
    }
  }

  /** The same, for a category: its buffer joins the truthy reads of its assets in registry order. */
  lemma BundleIsJoinedReads(env: Env, assets: seq<Asset>)
    ensures Bundle(env, assets) == Joined(Truthy(Reads(env, assets)))
  {
    BufferIsJoinedTruthy(Reads(env, assets));
  }

  /** A read of "" or "0", like a failed read, adds nothing. */
  lemma FalsyReadContributesNothing(s: string)
    requires s == "" || s == "0"
    ensures Contribution(Some(s)) == ""
    ensures Contribution(None) == ""
  {
  }

  /** A read made of trimmable characters only is truthy but adds a bare line feed. */
  lemma {:induction false} BlankReadContributesEol(s: string)
    requires s != "" && AllTrimmable(s)
    ensures Contribution(Some(s)) == Eol
  {
    TrimEmptyIffBlank(s);
    assert s != "0" by { assert !IsTrimmable('0'); }
  }

  /** The buffer is never "0", so `if ($content)` is the same test as "not empty". */
  lemma BufferTruthyIffNonEmpty(env: Env, assets: seq<Asset>)
    ensures IsTruthy(Bundle(env, assets)) <==> Bundle(env, assets) != ""
  {
    BufferEndsWithEol(Reads(env, assets));
  }

  /**
   * Three local assets A, B and C where B's read fails and A and C read "a"
   * and "c": the buffer is "a\nc\n".
   */
  lemma FailedAssetSkippedInOrder(env: Env)
    requires env.fileGetContents("a.css") == Str("a")
    requires env.fileGetContents("b.css") == Bool(false)
    requires env.fileGetContents("c.css") == Str("c")
    ensures Bundle(env, [Asset("A", "a.css", false), Asset("B", "b.css", false), Asset("C", "c.css", false)])
         == "a\nc\n"
  {
    var a, b, c := Asset("A", "a.css", false), Asset("B", "b.css", false), Asset("C", "c.css", false);
    PlainFirstCharNoUrl("a.css");
    PlainFirstCharNoUrl("b.css");
    PlainFirstCharNoUrl("c.css");
    assert Resolve(env, a) == Some("a");
    assert Resolve(env, b) == None;
    assert Resolve(env, c) == Some("c");
    TrimOfTrimmed("a");
    TrimOfTrimmed("c");
    assert [a, b, c] == [a] + [b] + [c];
    calc {
      Bundle(env, [a, b, c]);
      { BundleSkipsFailed(env, [a], b, [c]); }
      Bundle(env, [a] + [c]);
      { BundleAppend(env, [a], [c]); }
      Bundle(env, [a]) + Bundle(env, [c]);
      { BundleSingle(env, a); BundleSingle(env, c); }
      Contribution(Some("a")) + Contribution(Some("c"));
      "a\n" + "c\n";
    }
  }

  // ---------------------------------------------------------------------
  // Categories and output files

  /** `methods`: scripts first, then styles, each written below the public root. */
  function Methods(env: Env): (cs: seq<Category>)
    ensures |cs| == 2
    ensures cs[0].accessor == AllScripts && cs[1].accessor == AllStyles
    ensures cs[0].outputPath == env.publicPath(env.scriptConfig)
    ensures cs[1].outputPath == env.publicPath(env.styleConfig)
  {
    [ Category(AllScripts, "js", env.publicPath(env.scriptConfig)),
      Category(AllStyles, "css", env.publicPath(env.styleConfig)) ]
  }

  /** `Nova::{$method}()`: the registry's list for an accessor. */
  function AssetsOf(registry: Registry, accessor: RegistryMethod): seq<Asset>
  {
    match accessor
    case AllScripts => registry.scripts
    case AllStyles => registry.styles
  }

  /** `if ($content) { $files->put($outputPath, $content); }` on the file map. */
  function WriteIfTruthy(files: map<string, string>, path: string, content: string): map<string, string>
  {
    if IsTruthy(content) then files[path := content] else files
  }

  /** The files after processing `categories` in order, starting from `files`. */
  function PublishCategories(files: map<string, string>, env: Env, registry: Registry, categories: seq<Category>)
    : map<string, string>
    decreases |categories|
  {
    if categories == [] then files
    else
      var c := categories[|categories| - 1];
      WriteIfTruthy(PublishCategories(files, env, registry, categories[..|categories| - 1]),
                    c.outputPath, Bundle(env, AssetsOf(registry, c.accessor)))
  }

  /** The files after the command's loop over both categories. */
  function Publish(files: map<string, string>, env: Env, registry: Registry): map<string, string>
  {
    PublishCategories(files, env, registry, Methods(env))
  }

  /** A file's content, or `None` when it does not exist. */
  function Lookup(files: map<string, string>, path: string): Option<string>
  {
    if path in files then Some(files[path]) else None
  }

  lemma PublishUnfold(files: map<string, string>, env: Env, registry: Registry)
    ensures Publish(files, env, registry)
         == WriteIfTruthy(WriteIfTruthy(files, env.publicPath(env.scriptConfig), Bundle(env, registry.scripts)),
                          env.publicPath(env.styleConfig), Bundle(env, registry.styles))
  {
    var cs := Methods(env);
    var one := cs[..1];
    var once := PublishCategories(files, env, registry, one);
    assert |one| == 1 && one[..|one| - 1] == [] && one[|one| - 1] == cs[0];
    assert PublishCategories(files, env, registry, []) == files;
    assert once == WriteIfTruthy(files, cs[0].outputPath, Bundle(env, registry.scripts));
    assert cs[..|cs| - 1] == cs[..1];
  }

  /**
   * The script file holds the script bundle when some script contributes;
   * otherwise it is left exactly as it was (present or absent).
   */
  lemma PublishScriptFile(files: map<string, string>, env: Env, registry: Registry)
    requires env.publicPath(env.scriptConfig) != env.publicPath(env.styleConfig)
    ensures var b := Bundle(env, registry.scripts);
      Lookup(Publish(files, env, registry), env.publicPath(env.scriptConfig))
        == if b != "" then Some(b) else Lookup(files, env.publicPath(env.scriptConfig))
  {
    PublishUnfold(files, env, registry);
    BufferTruthyIffNonEmpty(env, registry.scripts);
    BufferTruthyIffNonEmpty(env, registry.styles);
  }

  /**
   * The style file holds the style bundle when some style contributes;
   * otherwise it is left exactly as it was (present or absent).
   */
  lemma PublishStyleFile(files: map<string, string>, env: Env, registry: Registry)
    requires env.publicPath(env.scriptConfig) != env.publicPath(env.styleConfig)
    ensures var b := Bundle(env, registry.styles);
      Lookup(Publish(files, env, registry), env.publicPath(env.styleConfig))
        == if b != "" then Some(b) else Lookup(files, env.publicPath(env.styleConfig))
  {
    PublishUnfold(files, env, registry);
    BufferTruthyIffNonEmpty(env, registry.scripts);
    BufferTruthyIffNonEmpty(env, registry.styles);
  }

  /**
   * When both categories are configured to the same file, the styles are
   * written last: the file holds the style bundle if it is not empty, else
   * the script bundle if that is not empty, else what it held before.
   */
  lemma PublishSharedOutput(files: map<string, string>, env: Env, registry: Registry)
    requires env.publicPath(env.scriptConfig) == env.publicPath(env.styleConfig)
    ensures var p, s, t := env.publicPath(env.styleConfig), Bundle(env, registry.scripts), Bundle(env, registry.styles);
      Lookup(Publish(files, env, registry), p)
        == if t != "" then Some(t) else if s != "" then Some(s) else Lookup(files, p)
  {
    PublishUnfold(files, env, registry);
    BufferTruthyIffNonEmpty(env, registry.scripts);
    BufferTruthyIffNonEmpty(env, registry.styles);
  }

  /** No file other than the two output files is touched. */
  lemma PublishLeavesOtherFiles(files: map<string, string>, env: Env, registry: Registry, path: string)
    requires path != env.publicPath(env.scriptConfig) && path != env.publicPath(env.styleConfig)
    ensures Lookup(Publish(files, env, registry), path) == Lookup(files, path)
  {
    PublishUnfold(files, env, registry);
  }

  /** Running the command twice on unchanged inputs leaves the same files as running it once. */
  lemma PublishIdempotent(files: map<string, string>, env: Env, registry: Registry)
    ensures Publish(Publish(files, env, registry), env, registry) == Publish(files, env, registry)
  {
    PublishUnfold(files, env, registry);
    PublishUnfold(Publish(files, env, registry), env, registry);
  }

  /**
   * A local script "a.js" holding "  var a=1;  " and a remote script
   * "http://x/b.js" answering "var b=2;" give the buffer "var a=1;\nvar b=2;\n".
   */
  lemma TwoScriptsBundle(env: Env)
    requires env.fileGetContents("a.js") == Str("  var a=1;  ")
    requires env.httpGet("http://x/b.js") == "var b=2;"
    ensures Bundle(env, [Asset("a", "a.js", false), Asset("b", "http://x/b.js", true)]) == "var a=1;\nvar b=2;\n"
  {
    PaddedLocalScript(env);
    RemoteScript(env);
    BundlePair(env, Asset("a", "a.js", false), Asset("b", "http://x/b.js", true));
  }

  lemma PaddedLocalScript(env: Env)
    requires env.fileGetContents("a.js") == Str("  var a=1;  ")
    ensures Contribution(Resolve(env, Asset("a", "a.js", false))) == "var a=1;\n"
  {
    PlainFirstCharNoUrl("a.js");
    assert EffectivePath(env, Asset("a", "a.js", false)) == "a.js";
    assert Resolve(env, Asset("a", "a.js", false)) == Some("  var a=1;  ");
    TrimPaddedScript();
  }

  lemma TrimPaddedScript()
    ensures Trim("  var a=1;  ") == "var a=1;"
  {
    assert "  var a=1;  " == "  " + "var a=1;" + "  ";
    TrimStripsPadding("  ", "var a=1;", "  ");
  }

  lemma RemoteScript(env: Env)
    requires env.httpGet("http://x/b.js") == "var b=2;"
    ensures Contribution(Resolve(env, Asset("b", "http://x/b.js", true))) == "var b=2;\n"
  {
    assert IsUrl("http://x/b.js") by {
      IsUrlIff("http://x/b.js");
      assert "http://x/b.js"[..7] == "http://";
    }
    TrimOfTrimmed("var b=2;");
  }

  /** The same two scripts, with no styles, end up as the script output file. */
  lemma TwoScriptsScenario(files: map<string, string>, env: Env)
    requires env.fileGetContents("a.js") == Str("  var a=1;  ")
    requires env.httpGet("http://x/b.js") == "var b=2;"
    ensures var registry := Registry([Asset("a", "a.js", false), Asset("b", "http://x/b.js", true)], []);
      Lookup(Publish(files, env, registry), env.publicPath(env.scriptConfig)) == Some("var a=1;\nvar b=2;\n")
  {
    // Holds even when both outputs share a path: the empty style buffer is never written.
    var registry := Registry([Asset("a", "a.js", false), Asset("b", "http://x/b.js", true)], []);
    TwoScriptsBundle(env);
    PublishUnfold(files, env, registry);
    BufferTruthyIffNonEmpty(env, registry.scripts);
    assert Bundle(env, []) == "";
  }

  // ---------------------------------------------------------------------
  // The file system and the command

  /** The part of Laravel's `Filesystem` the command writes through: a map from path to content. */
  class Filesystem {
    var files: map<string, string>

    constructor (initial: map<string, string>)
      ensures files == initial
    {
      files := initial;
    }

    /** `put`: the file at `path` now holds exactly `content`; no other file changes. */
    method Put(path: string, content: string)
      modifies this
      ensures files == old(files)[path := content]
    {
      files := files[path := content];
    }
  }

  /** `if (Nova::$tools)`: a null or empty tool list boots nothing. */
  function ToolList(tools: Option<seq<Tool>>): seq<Tool>
  {
    if tools.Some? then tools.value else []
  }

  class PublishCommand {
    /** The tools whose `boot()` this command has called, in call order. */
    var booted: seq<Tool>

    constructor ()
      ensures booted == []
    {
      booted := [];
    }

    /**
     * `bootTools`: call `boot()` on every tool in order; whatever a tool
     * throws is caught and dropped, so every later tool is still booted.
     */
    method BootTools(tools: Option<seq<Tool>>)
      modifies this
      ensures booted == old(booted) + ToolList(tools)
    {
      if tools.Some? && tools.value != [] {
        var all := tools.value;
        for i := 0 to |all|
          invariant booted == old(booted) + all[..i]
        {
          // `boot()` is called whatever its outcome; a `Threw` outcome is caught and discarded
          booted := booted + [all[i]];
        }
        assert all[..|all|] == all;
      }
    }

    /** The inner loop of `handle`: build the buffer for one category's assets. */
    method ReadAssets(env: Env, assets: seq<Asset>) returns (content: string)
      ensures content == Bundle(env, assets)
    {
      content := "";
      for i := 0 to |assets|
        invariant content == Bundle(env, assets[..i])
      {
        var path := EffectivePath(env, assets[i]);
        var result := ReadFile(env, path);
        if IsTruthyNullable(result) {
          content := content + Trim(result.value) + Eol;
        }
        ghost var ps := Pieces(Reads(env, assets[..i + 1]));
        assert ps[..i] == Pieces(Reads(env, assets[..i])) && ps[i] == Contribution(result);
      }
      assert assets[..|assets|] == assets;
    }

    /**
     * `handle`: boot the tools, then build each category's buffer and write
     * it to the category's output file when it is truthy; always succeeds.
     */
    method Handle(fs: Filesystem, env: Env, registry: Registry, tools: Option<seq<Tool>>) returns (code: int)
      modifies this, fs
      ensures code == Success
      ensures booted == old(booted) + ToolList(tools)
      ensures fs.files == Publish(old(fs.files), env, registry)
    {
      BootTools(tools);
      var categories := Methods(env);
      for k := 0 to |categories|
        invariant booted == old(booted) + ToolList(tools)
        invariant fs.files == PublishCategories(old(fs.files), env, registry, categories[..k])
      {
        var category := categories[k];
        var content := ReadAssets(env, AssetsOf(registry, category.accessor));
        ghost var before := fs.files;
        if IsTruthy(content) {
          fs.Put(category.outputPath, content);
        }
        assert fs.files == WriteIfTruthy(before, category.outputPath, content);
        ghost var done := categories[..k + 1];
        assert done[..|done| - 1] == categories[..k] && done[|done| - 1] == category;
      }
      assert categories[..|categories|] == categories;
      code := Success;
    }
  }
}

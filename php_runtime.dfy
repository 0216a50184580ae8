/**
 * The parts of PHP's runtime that the publish command relies on: nullable
 * strings, the mixed result of a file read, the truthiness of a string in a
 * condition, the default `trim` and Laravel's multi-needle `Str::startsWith`.
 * Strings are sequences of characters; PHP works on bytes, but none of the
 * characters involved here is multi-byte.
 */
module PhpRuntime {

  /** A PHP `?string`: `None` is `null`. */
  datatype Option<+T> = None | Some(value: T)

  /** The values a PHP I/O call can hand back: a string, a boolean (`false` on failure) or `null`. */
  datatype PhpValue = Str(s: string) | Bool(b: bool) | Null

  /**
   * `is_string($v) ? $v : null`: every value that is not a string becomes `null`.
   */
  function AsNullableString(v: PhpValue): (r: Option<string>)
    ensures r.Some? <==> v.Str?
    ensures v.Str? ==> r.value == v.s
  {
    match v
    case Str(s) => Some(s)
    case _ => None
  }

  /** PHP truthiness of a string: only "" and "0" are falsy. */
  predicate IsTruthy(s: string)
  {
    s != "" && s != "0"
  }

  /** PHP truthiness of a `?string`: `null` is falsy, a string as above. */
  predicate IsTruthyNullable(r: Option<string>)
  {
    r.Some? && IsTruthy(r.value)
  }

  /** The characters PHP's `trim` strips by default: " ", "\t", "\n", "\r", "\0" and "\x0B". */
  predicate IsTrimmable(c: char)
  {
    c == ' ' || c == '\t' || c == '\n' || c == '\r' || c == '\0' || c == '\U{B}'
  }

  predicate AllTrimmable(s: string)
  {
    forall i | 0 <= i < |s| :: IsTrimmable(s[i])
  }

  /** `ltrim($s)`: drops the leading run of trimmable characters. */
  function TrimLeft(s: string): string
    decreases |s|
  {
    if s != [] && IsTrimmable(s[0]) then TrimLeft(s[1..]) else s
  }

  /** `rtrim($s)`: drops the trailing run of trimmable characters. */
  function TrimRight(s: string): string
    decreases |s|
  {
    if s != [] && IsTrimmable(s[|s| - 1]) then TrimRight(s[..|s| - 1]) else s
  }

  /** `trim($s)`: `rtrim(ltrim($s))`. */
  function Trim(s: string): string
  {
    TrimRight(TrimLeft(s))
  }

  /** `ltrim` keeps a suffix that does not start with a trimmable character and cuts only trimmable ones. */
  lemma {:induction false} TrimLeftCuts(s: string)
    ensures var r := TrimLeft(s);
      && |r| <= |s| && r == s[|s| - |r|..]
      && AllTrimmable(s[..|s| - |r|])
      && (r == [] || !IsTrimmable(r[0]))
    decreases |s|
  {
    if s != [] && IsTrimmable(s[0]) {
      TrimLeftCuts(s[1..]);
      var k := |s| - |TrimLeft(s)|;
      forall i | 0 <= i < k ensures IsTrimmable(s[..k][i]) {
        if i > 0 { assert s[..k][i] == s[1..][..k - 1][i - 1]; }
      }
    }
  }

  /** `rtrim` keeps a prefix that does not end with a trimmable character and cuts only trimmable ones. */
  lemma {:induction false} TrimRightCuts(s: string)
    ensures var r := TrimRight(s);
      && |r| <= |s| && r == s[..|r|]
      && AllTrimmable(s[|r|..])
      && (r == [] || !IsTrimmable(r[|r| - 1]))
    decreases |s|
  {
    if s != [] && IsTrimmable(s[|s| - 1]) {
      var init := s[..|s| - 1];
      TrimRightCuts(init);
      var k := |TrimRight(s)|;
      forall j | 0 <= j < |s| - k ensures IsTrimmable(s[k..][j]) {
        if k + j < |s| - 1 { assert s[k..][j] == init[k..][j]; }
      }
    }
  }

  /** The result of `trim` neither starts nor ends with a trimmable character. */
  lemma TrimEdges(s: string)
    ensures |Trim(s)| <= |s|
    ensures Trim(s) == [] || (!IsTrimmable(Trim(s)[0]) && !IsTrimmable(Trim(s)[|Trim(s)| - 1]))
  {
    var l := TrimLeft(s);
    TrimLeftCuts(s);
    TrimRightCuts(l);
    var r := TrimRight(l);
    assert r == [] || r[0] == l[0];
  }

  /** `trim` only cuts: its result is an infix of `s`, and both cut ends are trimmable. */
  lemma TrimIsInfix(s: string)
    ensures var k := |s| - |TrimLeft(s)|;
      && 0 <= k && k + |Trim(s)| <= |s|
      && Trim(s) == s[k..k + |Trim(s)|]
      && AllTrimmable(s[..k])
      && AllTrimmable(s[k + |Trim(s)|..])
  {
    var l := TrimLeft(s);
    var k := |s| - |l|;
    var r := TrimRight(l);
    TrimLeftCuts(s);
    TrimRightCuts(l);
    assert l[..|r|] == s[k..k + |r|];
    assert l[|r|..] == s[k + |r|..];
  }

  /** A string with no trimmable character at either end is its own trim. */
  lemma TrimOfTrimmed(s: string)
    requires s == [] || (!IsTrimmable(s[0]) && !IsTrimmable(s[|s| - 1]))
    ensures Trim(s) == s
  {
    assert TrimLeft(s) == s;
    assert TrimRight(s) == s;
  }

  /** `trim` is idempotent. */
  lemma TrimIdempotent(s: string)
    ensures Trim(Trim(s)) == Trim(s)
  {
    TrimEdges(s);
    TrimOfTrimmed(Trim(s));
  }

  /** `trim` yields "" exactly on strings made of trimmable characters only. */
  lemma TrimEmptyIffBlank(s: string)
    ensures Trim(s) == "" <==> AllTrimmable(s)
  {
    var l := TrimLeft(s);
    var k := |s| - |l|;
    TrimLeftCuts(s);
    TrimRightCuts(l);
    if Trim(s) == "" {
      // a non-empty `l` would start with a kept character
      assert l == [];
      assert s[..k] == s;
    } else {
      assert l != [] && l[0] == s[k] && !IsTrimmable(l[0]);
    }
  }

  lemma {:induction false} TrimLeftPadding(pad: string, t: string)
    requires AllTrimmable(pad) && (t == [] || !IsTrimmable(t[0]))
    ensures TrimLeft(pad + t) == t
    decreases |pad|
  {
    if pad == [] {
      assert pad + t == t;
    } else {
      assert (pad + t)[0] == pad[0] && (pad + t)[1..] == pad[1..] + t;
      TrimLeftPadding(pad[1..], t);
    }
  }

  lemma {:induction false} TrimRightPadding(t: string, pad: string)
    requires AllTrimmable(pad) && (t == [] || !IsTrimmable(t[|t| - 1]))
    ensures TrimRight(t + pad) == t
    decreases |pad|
  {
    if pad == [] {
      assert t + pad == t;
    } else {
      var init := pad[..|pad| - 1];
      assert (t + pad)[|t + pad| - 1] == pad[|pad| - 1] && (t + pad)[..|t + pad| - 1] == t + init;
      TrimRightPadding(t, init);
    }
  }

  /**
   * `trim` strips exactly the padding: a core that neither starts nor ends
   * with a trimmable character comes back unchanged from between any two
   * runs of trimmable characters.
   */
  lemma TrimStripsPadding(left: string, core: string, right: string)
    requires AllTrimmable(left) && AllTrimmable(right)
    requires core == [] || (!IsTrimmable(core[0]) && !IsTrimmable(core[|core| - 1]))
    ensures Trim(left + core + right) == core
  {
    if core == [] {
      assert AllTrimmable(left + core + right);
      TrimEmptyIffBlank(left + core + right);
    } else {
      assert left + core + right == left + (core + right);
      TrimLeftPadding(left, core + right);
      TrimRightPadding(core, right);
    }
  }

  /** `str_starts_with($haystack, $needle)`. */
  predicate StartsWith(haystack: string, needle: string)
  {
    |needle| <= |haystack| && haystack[..|needle|] == needle
  }

  /**
   * Laravel's `Str::startsWith($haystack, [$n0, $n1, ...])` for non-empty
   * needles (Laravel skips an empty needle; none is empty here): the needles
   * are tried in order and the first one that is a prefix answers true.
   */
  function StartsWithAny(haystack: string, needles: seq<string>): bool
  {
    if needles == [] then false
    else StartsWith(haystack, needles[0]) || StartsWithAny(haystack, needles[1..])
  }

  /** The haystack starts with one of the needles, whichever it is. */
  lemma {:induction false} StartsWithAnyIff(haystack: string, needles: seq<string>)
    ensures StartsWithAny(haystack, needles) <==> exists i | 0 <= i < |needles| :: StartsWith(haystack, needles[i])
  {
    if needles != [] {
      StartsWithAnyIff(haystack, needles[1..]);
      assert forall i | 1 <= i < |needles| :: needles[i] == needles[1..][i - 1];
    }
  }
}

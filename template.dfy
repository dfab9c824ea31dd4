/** Route templates such as `/users/{id}/posts/{post_id}`.

    Route.php turns a template into a PCRE pattern in one pass: every `{name}`
    (name = `[a-zA-Z0-9_]+`) becomes the capture group `([^\/]+)`, the rest is
    kept as it is, and the pattern is anchored as `#^...$#`. The same scan
    records the names. This module models that scan (`Tokenize`, `Names`), the
    anchored greedy match with its backtracking (`Captures`) and the pairing of
    captures with names (`Bind`). Literal text is compared character by
    character. */
module Template {
  import opened Wrappers

  datatype Token = Lit(c: char) | Param(name: string)

  predicate IsWordChar(c: char) {
    'a' <= c <= 'z' || 'A' <= c <= 'Z' || '0' <= c <= '9' || c == '_'
  }

  /** A placeholder name: what `[a-zA-Z0-9_]+` accepts. */
  predicate IsName(n: string) {
    n != [] && forall i :: 0 <= i < |n| ==> IsWordChar(n[i])
  }

  /** Length of the longest prefix of `s` made of word characters. */
  function WordRun(s: string): (k: nat)
    ensures k <= |s|
    ensures forall i :: 0 <= i < k ==> IsWordChar(s[i])
    ensures k < |s| ==> !IsWordChar(s[k])
  {
    if s == [] || !IsWordChar(s[0]) then 0 else 1 + WordRun(s[1..])
  }

  /** `s` starts with `{`, then `k` word characters, then `}`. */
  predicate PlaceholderOfLength(s: string, k: nat) {
    0 < k && k + 2 <= |s| && s[0] == '{' && s[k + 1] == '}' && IsName(s[1..k + 1])
  }

  /** Where the placeholder regex matches at the start of `s`: the length of the
      name, or 0 when it does not match there. */
  function PlaceholderAt(s: string): (k: nat)
    ensures k > 0 ==> PlaceholderOfLength(s, k)
    ensures forall j :: PlaceholderOfLength(s, j) ==> j == k
  {
    if s != [] && s[0] == '{' then
      var k := WordRun(s[1..]);
      if 0 < k && k + 1 < |s| && s[k + 1] == '}' then k else 0
    else 0
  }

  /** The template written back: each placeholder as `{name}`. */
  function Render(toks: seq<Token>): (s: string) {
    if toks == [] then []
    else match toks[0]
      case Lit(c) => [c] + Render(toks[1..])
      case Param(n) => "{" + n + "}" + Render(toks[1..])
  }

  /** The left-to-right scan that `preg_replace` and `preg_match_all` both make:
      a placeholder wherever the regex matches, one literal character otherwise.
      Nothing is lost, and every placeholder name is a well-formed name. */
  function Tokenize(s: string): (toks: seq<Token>)
    ensures Render(toks) == s
    ensures forall i :: 0 <= i < |toks| && toks[i].Param? ==> IsName(toks[i].name)
    decreases |s|
  {
    if s == [] then []
    else
      var k := PlaceholderAt(s);
      if k > 0 then
        var rest := Tokenize(s[k + 2..]);
        assert s == "{" + s[1..k + 1] + "}" + s[k + 2..];
        [Param(s[1..k + 1])] + rest
      else
        [Lit(s[0])] + Tokenize(s[1..])
  }

  /** The tokens are the regex's own scan: at each token, the rest of the
      template starts with a placeholder exactly when the token is a `Param`,
      and then the token holds that placeholder's name. So `{id}` is never
      read as literal text, and literal text never as a placeholder. */
  lemma {:induction false} TokenizeScans(s: string)
    ensures var toks := Tokenize(s);
      forall i :: 0 <= i < |toks| ==>
        && (toks[i].Lit? <==> PlaceholderAt(Render(toks[i..])) == 0)
        && (toks[i].Param? ==> |toks[i].name| == PlaceholderAt(Render(toks[i..])))
    decreases |s|
  {
    if s != [] {
      var toks := Tokenize(s);
      var k := PlaceholderAt(s);
      var rest := if k > 0 then s[k + 2..] else s[1..];
      TokenizeScans(rest);
      assert toks[1..] == Tokenize(rest);
      forall i | 0 <= i < |toks|
        ensures toks[i].Lit? <==> PlaceholderAt(Render(toks[i..])) == 0
        ensures toks[i].Param? ==> |toks[i].name| == PlaceholderAt(Render(toks[i..]))
      {
        if i == 0 {
          assert toks[i..] == toks;
        } else {
          assert toks[i..] == toks[1..][i - 1..];
        }
      }
    }
  }

  /** The placeholder names in order of appearance (`$this->uriParams`). */
  function Names(toks: seq<Token>): (names: seq<string>) {
    if toks == [] then []
    else match toks[0]
      case Lit(_) => Names(toks[1..])
      case Param(n) => [n] + Names(toks[1..])
  }

  /** A value a placeholder can take: non-empty, no `/` (what `[^\/]+` accepts). */
  predicate IsSegment(v: string) {
    v != [] && forall i :: 0 <= i < |v| ==> v[i] != '/'
  }

  /** One value per placeholder, each a segment. */
  predicate Fits(toks: seq<Token>, vals: seq<string>) {
    |vals| == |Names(toks)| && forall i :: 0 <= i < |vals| ==> IsSegment(vals[i])
  }

  /** The path obtained by substituting `vals` for the placeholders. */
  function Fill(toks: seq<Token>, vals: seq<string>): (path: string)
    requires |vals| == |Names(toks)|
  {
    if toks == [] then []
    else match toks[0]
      case Lit(c) => [c] + Fill(toks[1..], vals)
      case Param(_) => vals[0] + Fill(toks[1..], vals[1..])
  }

  /** `path` is the template filled with `vals`. PCRE's `$` (without the `D`
      modifier) also matches just before one final newline, so that newline may
      follow. */
  predicate Splits(toks: seq<Token>, path: string, vals: seq<string>) {
    Fits(toks, vals) && (path == Fill(toks, vals) || path == Fill(toks, vals) + "\n")
  }

  /** Length of the longest prefix of `s` without `/`. */
  function SegmentRun(s: string): (k: nat)
    ensures k <= |s|
    ensures forall i :: 0 <= i < k ==> s[i] != '/'
    ensures k < |s| ==> s[k] == '/'
  {
    if s == [] || s[0] == '/' then 0 else 1 + SegmentRun(s[1..])
  }

  /** What `$` accepts: the end, or a last newline. */
  predicate AtEnd(s: string) {
    s == [] || s == "\n"
  }

  /** The captures of the anchored pattern on `s`, as PCRE finds them: each
      `([^\/]+)` first takes the longest run it can and gives characters back
      one at a time until the rest of the pattern matches. `None` when the
      pattern does not match. A match has one capture per recorded name. */
  function Captures(toks: seq<Token>, s: string): (r: Option<seq<string>>)
    ensures r.Some? ==> |r.value| == |Names(toks)|
    decreases |toks|, |s| + 1
  {
    if toks == [] then
      if AtEnd(s) then Some([]) else None
    else match toks[0]
      case Lit(c) =>
        if s != [] && s[0] == c then Captures(toks[1..], s[1..]) else None
      case Param(_) =>
        TryLengths(toks[1..], s, SegmentRun(s))
  }

  /** A capture of length `k`, then `k - 1`, ..., then 1, followed by `rest`. */
  function TryLengths(rest: seq<Token>, s: string, k: nat): (r: Option<seq<string>>)
    requires k <= |s|
    ensures r.Some? ==> |r.value| == 1 + |Names(rest)|
    decreases |rest| + 1, k
  {
    if k == 0 then None
    else match Captures(rest, s[k..])
      case Some(cs) => Some([s[..k]] + cs)
      case None => TryLengths(rest, s, k - 1)
  }

  /** Whether the anchored pattern matches `s` (`preg_match` returns 1).
      `MatchesIff` states when. */
  predicate Matches(toks: seq<Token>, s: string) {
    Captures(toks, s).Some?
  }

  // ---------------------------------------------------------------------------
  // The match is exactly "the template filled with segments".

  /** Every capture list the matcher returns splits the path: one segment per
      placeholder (so the number of captures is the number of names), literals
      matched exactly, nothing before and nothing after but PCRE's final newline. */
  lemma {:induction false} CapturesSound(toks: seq<Token>, s: string)
    requires Captures(toks, s).Some?
    ensures Splits(toks, s, Captures(toks, s).value)
    decreases |toks|, |s| + 1
  {
    if toks != [] {
      match toks[0]
      case Lit(c) =>
        CapturesSound(toks[1..], s[1..]);
        assert s == [c] + s[1..];
      case Param(_) =>
        TryLengthsSound(toks[1..], s, SegmentRun(s));
        var cs := Captures(toks, s).value;
        var j := |cs[0]|;
        assert IsSegment(cs[0]);
        assert s == cs[0] + s[j..];
        assert Fill(toks, cs) == cs[0] + Fill(toks[1..], cs[1..]);
    }
  }

  lemma {:induction false} TryLengthsSound(rest: seq<Token>, s: string, k: nat)
    requires k <= SegmentRun(s)
    requires TryLengths(rest, s, k).Some?
    ensures var cs := TryLengths(rest, s, k).value;
      |cs| >= 1 && 1 <= |cs[0]| <= SegmentRun(s) && cs[0] == s[..|cs[0]|] &&
      Splits(rest, s[|cs[0]|..], cs[1..])
    decreases |rest| + 1, k
  {
    match Captures(rest, s[k..])
    case Some(cs) =>
      CapturesSound(rest, s[k..]);
      assert TryLengths(rest, s, k).value == [s[..k]] + cs;
    case None =>
      TryLengthsSound(rest, s, k - 1);
  }

  /** Conversely, every way of filling the template with segments is matched. */
  lemma {:induction false} CapturesComplete(toks: seq<Token>, s: string, vals: seq<string>)
    requires Splits(toks, s, vals)
    ensures Matches(toks, s)
    decreases |toks|
  {
    if toks != [] {
      match toks[0]
      case Lit(c) =>
        assert s[1..] == Fill(toks[1..], vals) || s[1..] == Fill(toks[1..], vals) + "\n";
        CapturesComplete(toks[1..], s[1..], vals);
      case Param(_) =>
        var v := vals[0];
        var j := |v|;
        assert s[..j] == v && (s[j..] == Fill(toks[1..], vals[1..]) || s[j..] == Fill(toks[1..], vals[1..]) + "\n");
        assert IsSegment(v);
        assert j <= SegmentRun(s);
        assert Splits(toks[1..], s[j..], vals[1..]);
        CapturesComplete(toks[1..], s[j..], vals[1..]);
        TryLengthsFinds(toks[1..], s, SegmentRun(s), j);
    }
  }

  lemma {:induction false} TryLengthsFinds(rest: seq<Token>, s: string, k: nat, j: nat)
    requires 1 <= j <= k <= |s|
    requires Matches(rest, s[j..])
    ensures TryLengths(rest, s, k).Some?
    decreases k
  {
    if Captures(rest, s[k..]).None? {
      TryLengthsFinds(rest, s, k - 1, j);
    }
  }

  /** `matches` in one sentence: the path is the template with each placeholder
      replaced by a non-empty, slash-free value (plus at most PCRE's final newline). */
  lemma MatchesIff(toks: seq<Token>, s: string)
    ensures Matches(toks, s) <==> exists vals :: Splits(toks, s, vals)
  {
    if Matches(toks, s) {
      CapturesSound(toks, s);
    }
    forall vals | Splits(toks, s, vals) ensures Matches(toks, s) {
      CapturesComplete(toks, s, vals);
    }
  }

  /** A template without placeholders, filled with nothing, is its own text. */
  lemma {:induction false} FillStatic(toks: seq<Token>)
    requires Names(toks) == []
    ensures Fill(toks, []) == Render(toks)
  {
    if toks != [] && toks[0].Lit? {
      FillStatic(toks[1..]);
    }
  }

  /** The pattern is anchored at both ends: a template without placeholders
      accepts its own text and nothing longer or shorter (but for PCRE's final
      newline). */
  lemma StaticTemplate(uri: string, path: string)
    requires Names(Tokenize(uri)) == []
    ensures Matches(Tokenize(uri), path) <==> path == uri || path == uri + "\n"
  {
    var toks := Tokenize(uri);
    FillStatic(toks);
    MatchesIff(toks, path);
    if path == uri || path == uri + "\n" {
      assert Splits(toks, path, []);
    }
  }

  // ---------------------------------------------------------------------------
  // Round trip.

  /** Every placeholder is followed by `/` or ends the template, so a capture
      cannot run into the next placeholder or literal. */
  predicate Separated(toks: seq<Token>) {
    forall i :: 0 <= i < |toks| && toks[i].Param? ==> i + 1 == |toks| || toks[i + 1] == Lit('/')
  }

  /** On a separated template, filling in segments and matching gives back exactly
      those segments, in order. */
  lemma {:induction false} CapturesFill(toks: seq<Token>, vals: seq<string>)
    requires Separated(toks) && Fits(toks, vals)
    ensures Captures(toks, Fill(toks, vals)) == Some(vals)
    decreases |toks|
  {
    if toks != [] {
      SeparatedTail(toks);
      match toks[0]
      case Lit(c) =>
        CapturesFill(toks[1..], vals);
      case Param(_) =>
        assert Fits(toks[1..], vals[1..]);
        CapturesFill(toks[1..], vals[1..]);
        CapturesFillParam(toks, vals);
    }
  }

  lemma SeparatedTail(toks: seq<Token>)
    requires toks != [] && Separated(toks)
    ensures Separated(toks[1..])
  {
    var rest := toks[1..];
    forall i | 0 <= i < |rest| && rest[i].Param?
      ensures i + 1 == |rest| || rest[i + 1] == Lit('/')
    {
      assert toks[i + 1] == rest[i];
    }
  }

  /** The placeholder step of `CapturesFill`: the value fills the placeholder up
      to the `/` that follows it, so the greedy capture takes exactly the value. */
  lemma CapturesFillParam(toks: seq<Token>, vals: seq<string>)
    requires toks != [] && toks[0].Param? && Separated(toks) && Fits(toks, vals)
    requires |vals[1..]| == |Names(toks[1..])|
    requires Captures(toks[1..], Fill(toks[1..], vals[1..])) == Some(vals[1..])
    ensures Captures(toks, Fill(toks, vals)) == Some(vals)
  {
    var rest := toks[1..];
    var v := vals[0];
    var s := Fill(toks, vals);
    var tail := Fill(rest, vals[1..]);
    assert s == v + tail;
    assert IsSegment(v);
    assert SegmentRun(s) == |v| by {
      if rest != [] {
        assert rest[0] == Lit('/');
        assert tail[0] == '/';
        assert s[|v|] == '/';
      } else {
        assert s == v;
      }
    }
    assert s[|v|..] == tail && s[..|v|] == v;
    assert Captures(toks, s) == TryLengths(rest, s, |v|);
    assert TryLengths(rest, s, |v|) == Some([v] + vals[1..]);
    assert vals == [v] + vals[1..];
  }

  // ---------------------------------------------------------------------------
  // Pairing captures with names.

  /** The `foreach ($this->uriParams as $index => $paramName)` loop: each name is
      bound to the capture at its position when there is one; a later name
      overwrites an earlier equal one. */
  function Bind(names: seq<string>, caps: seq<string>): (m: map<string, string>)
    ensures forall n :: n in m ==> n in names
    decreases |names|
  {
    if names == [] then map[]
    else
      var i := |names| - 1;
      var m := Bind(names[..i], caps);
      if i < |caps| then m[names[i] := caps[i]] else m
  }

  /** With a capture for every name: the keys are exactly the names, and each name
      is bound to the capture at its LAST position (the later capture wins). */
  lemma {:induction false} BindLastWins(names: seq<string>, caps: seq<string>)
    requires |names| <= |caps|
    ensures forall n :: n in Bind(names, caps) <==> n in names
    ensures forall i :: 0 <= i < |names| && (forall j :: i < j < |names| ==> names[j] != names[i]) ==>
      Bind(names, caps)[names[i]] == caps[i]
    decreases |names|
  {
    if names != [] {
      var k := |names| - 1;
      BindLastWins(names[..k], caps);
      forall n ensures n in Bind(names, caps) <==> n in names {
        assert n in names <==> n in names[..k] || n == names[k] by {
          assert names == names[..k] + [names[k]];
        }
      }
    }
  }

  /** With distinct names, the i-th name is bound to the i-th capture. */
  lemma BindDistinct(names: seq<string>, caps: seq<string>, i: nat)
    requires |names| <= |caps| && i < |names|
    requires forall a, b :: 0 <= a < b < |names| ==> names[a] != names[b]
    ensures names[i] in Bind(names, caps) && Bind(names, caps)[names[i]] == caps[i]
  {
    BindLastWins(names, caps);
  }
}

// Reading the offline heart-rate CSV: device-name sanitisation, the
// metadata date and device name, time-cell parsing, the mandatory
// `Time,Second,HR` header, and the corrected, stably sorted sample list.
// The CSV has already been split into rows of cells; `strptime` and
// `float()` are supplied as oracles.
module HrCsvParse {
  import opened Wrappers
  import opened Text
  import opened Numbers

  // ------------------------------------------------ device-name sanitising

  /** The characters `[a-z0-9]` that survive sanitisation. */
  predicate IsIdentChar(c: char) { 'a' <= c <= 'z' || '0' <= c <= '9' }

  /** The `[a-z0-9]` characters of `s`, in order. */
  function IdentChars(s: string): string
  {
    if s == [] then [] else (if IsIdentChar(s[0]) then [s[0]] else []) + IdentChars(s[1..])
  }

  lemma {:induction false} IdentCharsAppend(a: string, b: string)
    ensures IdentChars(a + b) == IdentChars(a) + IdentChars(b)
    decreases |a|
  {
    if a == [] {
      assert a + b == b;
    } else {
      var h := if IsIdentChar(a[0]) then [a[0]] else [];
      assert (a + b)[0] == a[0] && (a + b)[1..] == a[1..] + b;
      assert IdentChars(a + b) == h + IdentChars(a[1..] + b);
      IdentCharsAppend(a[1..], b);
      assert IdentChars(a) == h + IdentChars(a[1..]);
    }
  }

  lemma {:induction false} IdentCharsNone(s: string)
    requires forall k :: 0 <= k < |s| ==> !IsIdentChar(s[k])
    ensures IdentChars(s) == []
    decreases |s|
  {
    if s != [] { IdentCharsNone(s[1..]); }
  }

  predicate NoDoubleUnderscore(s: string)
  {
    forall k :: 0 <= k < |s| - 1 ==> !(s[k] == '_' && s[k + 1] == '_')
  }

  /** A usable field-name fragment: `[a-z0-9_]`, no `_` at either end, no `__`. */
  predicate IsFieldFragment(s: string)
  {
    s != [] &&
    (forall k :: 0 <= k < |s| ==> IsIdentChar(s[k]) || s[k] == '_') &&
    s[0] != '_' && s[|s| - 1] != '_' && NoDoubleUnderscore(s)
  }

  /** Drop the leading characters outside `[a-z0-9]`. */
  function SkipRun(s: string): (r: string)
    ensures |r| <= |s|
  {
    if s == [] || IsIdentChar(s[0]) then s else SkipRun(s[1..])
  }

  /** What is skipped is a prefix outside `[a-z0-9]`; what is left is empty or starts inside it. */
  lemma {:induction false} SkipRunSpec(s: string)
    ensures var r := SkipRun(s);
      r == s[|s| - |r|..] && (r != [] ==> IsIdentChar(r[0])) &&
      forall k :: 0 <= k < |s| - |r| ==> !IsIdentChar(s[k])
  {
    if s != [] && !IsIdentChar(s[0]) { SkipRunSpec(s[1..]); }
  }

  /** `re.sub(r'[^a-z0-9]+', '_', s)`: every maximal run outside `[a-z0-9]` becomes one `_`. */
  function CollapseRuns(s: string): (r: string)
    ensures |r| <= |s|
    decreases |s|
  {
    if s == [] then []
    else if IsIdentChar(s[0]) then [s[0]] + CollapseRuns(s[1..])
    else "_" + CollapseRuns(SkipRun(s[1..]))
  }

  /**
   * The collapsed string is over `[a-z0-9_]`, has no `__`, is empty only for
   * the empty input, starts with `_` exactly when the input starts outside
   * `[a-z0-9]`, and keeps the input's letters and digits in order.
   */
  lemma {:induction false} CollapseRunsSpec(s: string)
    ensures var r := CollapseRuns(s);
      (forall k :: 0 <= k < |r| ==> IsIdentChar(r[k]) || r[k] == '_') &&
      NoDoubleUnderscore(r) &&
      (r == [] <==> s == []) &&
      (r != [] ==> (r[0] == '_' <==> !IsIdentChar(s[0]))) &&
      IdentChars(r) == IdentChars(s)
  {
    CollapseRunsShape(s);
    CollapseRunsKeepsIdent(s);
  }

  /** The collapsed string's alphabet, its lack of `__`, and its first character. */
  lemma {:induction false} CollapseRunsShape(s: string)
    ensures var r := CollapseRuns(s);
      (forall k :: 0 <= k < |r| ==> IsIdentChar(r[k]) || r[k] == '_') &&
      NoDoubleUnderscore(r) &&
      (r == [] <==> s == []) &&
      (r != [] ==> (r[0] == '_' <==> !IsIdentChar(s[0])))
    decreases |s|
  {
    if s == [] {
    } else if IsIdentChar(s[0]) {
      CollapseRunsShape(s[1..]);
    } else {
      var rest := SkipRun(s[1..]);
      SkipRunSpec(s[1..]);
      CollapseRunsShape(rest);
    }
  }

  /** Collapsing keeps the letters and digits in order. */
  lemma {:induction false} CollapseRunsKeepsIdent(s: string)
    ensures IdentChars(CollapseRuns(s)) == IdentChars(s)
    decreases |s|
  {
    if s == [] {
    } else if IsIdentChar(s[0]) {
      CollapseRunsKeepsIdent(s[1..]);
      IdentCharsAppend([s[0]], CollapseRuns(s[1..]));
      assert s == [s[0]] + s[1..];
      IdentCharsAppend([s[0]], s[1..]);
    } else {
      var rest := SkipRun(s[1..]);
      SkipRunSpec(s[1..]);
      CollapseRunsKeepsIdent(rest);
      IdentCharsNone(s[..|s| - |rest|]);
      assert s == s[..|s| - |rest|] + rest;
      IdentCharsAppend(s[..|s| - |rest|], rest);
      IdentCharsAppend("_", CollapseRuns(rest));
    }
  }

  /** A letter or digit is copied through, and the rest is collapsed on its own. */
  lemma {:induction false} CollapseKeepsIdentHead(c: char, s: string)
    requires IsIdentChar(c)
    ensures CollapseRuns([c] + s) == [c] + CollapseRuns(s)
  {
    assert ([c] + s)[0] == c && ([c] + s)[1..] == s;
  }

  /** Skipping stops exactly where the run outside `[a-z0-9]` ends. */
  lemma {:induction false} SkipRunOver(w: string, s: string)
    requires forall k :: 0 <= k < |w| ==> !IsIdentChar(w[k])
    requires s == [] || IsIdentChar(s[0])
    ensures SkipRun(w + s) == s
    decreases |w|
  {
    if w == [] {
      assert w + s == s;
    } else {
      assert (w + s)[0] == w[0] && (w + s)[1..] == w[1..] + s;
      SkipRunOver(w[1..], s);
    }
  }

  /**
   * A maximal run outside `[a-z0-9]` (non-empty, and followed by the end or by
   * a letter or digit) becomes one `_`, and the rest is collapsed on its own.
   */
  lemma {:induction false} CollapseRunToUnderscore(w: string, s: string)
    requires w != [] && forall k :: 0 <= k < |w| ==> !IsIdentChar(w[k])
    requires s == [] || IsIdentChar(s[0])
    ensures CollapseRuns(w + s) == "_" + CollapseRuns(s)
  {
    assert (w + s)[0] == w[0] && (w + s)[1..] == w[1..] + s;
    SkipRunOver(w[1..], s);
  }

  /** A word of letters and digits is copied through unchanged. */
  lemma {:induction false} CollapseKeepsWord(w: string, s: string)
    requires forall k :: 0 <= k < |w| ==> IsIdentChar(w[k])
    ensures CollapseRuns(w + s) == w + CollapseRuns(s)
    decreases |w|
  {
    if w == [] {
      assert w + s == s;
    } else {
      var v := w[1..];
      assert forall k :: 0 <= k < |v| ==> v[k] == w[k + 1];
      assert w + s == [w[0]] + (v + s);
      CollapseKeepsIdentHead(w[0], v + s);
      CollapseKeepsWord(v, s);
      assert w == [w[0]] + v;
    }
  }

  /** `sanitize_device_name`. */
  function SanitizeDeviceName(deviceName: Option<string>): (r: string)
    ensures IsFieldFragment(r)
  {
    if deviceName.None? || deviceName.value == "" then "default"
    else
      var collapsed := CollapseRuns(Lower(deviceName.value));
      var cleaned := StripChars(collapsed, {'_'});
      CollapseRunsSpec(Lower(deviceName.value));
      StrippedFragment(collapsed);
      if cleaned == [] then "default" else cleaned
  }

  /**
   * "default" for a missing or empty name and for one with no letter or digit;
   * otherwise the letters and digits of the lower-cased name, in order.
   */
  lemma {:induction false} SanitizeDeviceNameSpec(deviceName: Option<string>)
    ensures deviceName.None? || deviceName.value == "" ==> SanitizeDeviceName(deviceName) == "default"
    ensures deviceName.Some? && IdentChars(Lower(deviceName.value)) == [] ==>
      SanitizeDeviceName(deviceName) == "default"
    ensures deviceName.Some? && deviceName.value != "" && IdentChars(Lower(deviceName.value)) != [] ==>
      IdentChars(SanitizeDeviceName(deviceName)) == IdentChars(Lower(deviceName.value))
  {
    if deviceName.Some? && deviceName.value != "" {
      var collapsed := CollapseRuns(Lower(deviceName.value));
      CollapseRunsSpec(Lower(deviceName.value));
      StrippedFragment(collapsed);
    }
  }

  /** Stripping `_` from a collapsed name keeps its letters and digits and leaves a fragment. */
  lemma {:induction false} StrippedFragment(x: string)
    requires forall k :: 0 <= k < |x| ==> IsIdentChar(x[k]) || x[k] == '_'
    requires NoDoubleUnderscore(x)
    ensures var c := StripChars(x, {'_'});
      IdentChars(c) == IdentChars(x) && (c != [] ==> IsFieldFragment(c))
  {
    var a := StripStart(x, {'_'}, 0);
    var b := StripEnd(x, {'_'}, a, |x|);
    var c := x[a..b];
    StripCharsSpec(x, {'_'});
    SliceIdentChars(x, a, b);
    if c != [] { SliceFragment(x, a, b); }
  }

  /** A slice of a collapsed name that starts and ends off `_` is a fragment. */
  lemma {:induction false} SliceFragment(x: string, a: nat, b: nat)
    requires a < b <= |x| && x[a] != '_' && x[b - 1] != '_'
    requires forall k :: 0 <= k < |x| ==> IsIdentChar(x[k]) || x[k] == '_'
    requires NoDoubleUnderscore(x)
    ensures IsFieldFragment(x[a..b])
  {
    var c := x[a..b];
    forall k | 0 <= k < |c| - 1 ensures !(c[k] == '_' && c[k + 1] == '_') {
      assert c[k] == x[a + k] && c[k + 1] == x[a + k + 1];
    }
  }

  /** Cutting non-identifier characters off both ends keeps the identifier characters. */
  lemma {:induction false} SliceIdentChars(x: string, a: nat, b: nat)
    requires a <= b <= |x|
    requires forall k :: 0 <= k < a ==> x[k] == '_'
    requires forall k :: b <= k < |x| ==> x[k] == '_'
    ensures IdentChars(x[a..b]) == IdentChars(x)
  {
    var pre, mid, post := x[..a], x[a..b], x[b..];
    assert x == (pre + mid) + post;
    assert forall k :: 0 <= k < |pre| ==> pre[k] == x[k];
    assert forall k :: 0 <= k < |post| ==> post[k] == x[b + k];
    IdentCharsNone(pre);
    IdentCharsNone(post);
    IdentCharsAppend(pre + mid, post);
    IdentCharsAppend(pre, mid);
  }

  /** "Polar H10": the space becomes one `_`. */
  lemma {:induction false} SanitizePolarH10(name: string)
    requires name == "Polar H10"
    ensures SanitizeDeviceName(Some(name)) == "polar_h10"
  {
    LowerPolarH10(name);
    PolarH10Words();
    SanitizeJoinsWords(name, "", ["polar", "h10"], [" "], "");
  }

  lemma {:induction false} LowerPolarH10(name: string)
    requires name == "Polar H10"
    ensures Lower(name) == "polar h10"
  {
    LowerEach(name);
  }

  lemma PolarH10Words()
    ensures WordsAndGaps(["polar", "h10"], [" "]) && JoinUnderscore(["polar", "h10"]) == "polar_h10"
    ensures "" + Interleave(["polar", "h10"], [" "]) + "" == "polar h10"
  {
  }

  /** "Garmin HRM-Dual": the space and the hyphen each become one `_`. */
  lemma {:induction false} SanitizeGarminHrmDual(name: string)
    requires name == "Garmin HRM-Dual"
    ensures SanitizeDeviceName(Some(name)) == "garmin_hrm_dual"
  {
    LowerGarminHrmDual(name);
    GarminHrmDualWords();
    SanitizeJoinsWords(name, "", ["garmin", "hrm", "dual"], [" ", "-"], "");
  }

  lemma {:induction false} LowerGarminHrmDual(name: string)
    requires name == "Garmin HRM-Dual"
    ensures Lower(name) == "garmin hrm-dual"
  {
    var a, b := name[..7], name[7..];
    SplitGarminHrmDual(name);
    assert name == a + b;
    LowerAppend(a, b);
    LowerGarmin(a);
    LowerHrmDual(b);
  }

  lemma SplitGarminHrmDual(name: string)
    requires name == "Garmin HRM-Dual"
    ensures name[..7] == "Garmin " && name[7..] == "HRM-Dual"
  {
  }

  lemma {:induction false} LowerGarmin(a: string)
    requires a == "Garmin "
    ensures Lower(a) == "garmin "
  {
    LowerEach(a);
  }

  lemma {:induction false} LowerHrmDual(b: string)
    requires b == "HRM-Dual"
    ensures Lower(b) == "hrm-dual"
  {
    LowerEach(b);
  }

  lemma GarminHrmDualWords()
    ensures WordsAndGaps(["garmin", "hrm", "dual"], [" ", "-"]) && JoinUnderscore(["garmin", "hrm", "dual"]) == "garmin_hrm_dual"
    ensures IsGap("") && IsGap("")
    ensures "" + Interleave(["garmin", "hrm", "dual"], [" ", "-"]) + "" == "garmin hrm-dual"
  {
    GarminHrmDualGaps();
    GarminHrmDualJoined();
    GarminHrmDualInterleaved();
  }

  lemma GarminHrmDualGaps()
    ensures WordsAndGaps(["garmin", "hrm", "dual"], [" ", "-"])
  {
  }

  lemma GarminHrmDualJoined()
    ensures JoinUnderscore(["garmin", "hrm", "dual"]) == "garmin_hrm_dual"
  {
  }

  lemma GarminHrmDualInterleaved()
    ensures "" + Interleave(["garmin", "hrm", "dual"], [" ", "-"]) + "" == "garmin hrm-dual"
  {
  }

  /** "Device  Name!!": two spaces give one `_`, and the trailing `!!` is dropped. */
  lemma {:induction false} SanitizeDeviceNameSpaced(name: string)
    requires name == "Device  Name!!"
    ensures SanitizeDeviceName(Some(name)) == "device_name"
  {
    LowerDeviceNameSpaced(name);
    DeviceNameSpacedWords();
    SanitizeJoinsWords(name, "", ["device", "name"], ["  "], "!!");
  }

  lemma {:induction false} LowerDeviceNameSpaced(name: string)
    requires name == "Device  Name!!"
    ensures Lower(name) == "device  name!!"
  {
    var a, b := name[..7], name[7..];
    SplitDeviceNameSpaced(name);
    assert name == a + b;
    LowerAppend(a, b);
    LowerDeviceWord(a);
    LowerNameWord(b);
  }

  lemma SplitDeviceNameSpaced(name: string)
    requires name == "Device  Name!!"
    ensures name[..7] == "Device " && name[7..] == " Name!!"
  {
  }

  lemma {:induction false} LowerDeviceWord(a: string)
    requires a == "Device "
    ensures Lower(a) == "device "
  {
    LowerEach(a);
  }

  lemma {:induction false} LowerNameWord(b: string)
    requires b == " Name!!"
    ensures Lower(b) == " name!!"
  {
    LowerEach(b);
  }

  lemma DeviceNameSpacedWords()
    ensures WordsAndGaps(["device", "name"], ["  "]) && JoinUnderscore(["device", "name"]) == "device_name"
    ensures IsGap("") && IsGap("!!")
    ensures "" + Interleave(["device", "name"], ["  "]) + "!!" == "device  name!!"
  {
  }

  /** "  Device123  ": the spaces at either end are dropped. */
  lemma {:induction false} SanitizePadded(name: string)
    requires name == "  Device123  "
    ensures SanitizeDeviceName(Some(name)) == "device123"
  {
    LowerPadded(name);
    PaddedWords();
    SanitizeJoinsWords(name, "  ", ["device123"], [], "  ");
  }

  lemma {:induction false} LowerPadded(name: string)
    requires name == "  Device123  "
    ensures Lower(name) == "  device123  "
  {
    LowerEach(name);
  }

  lemma PaddedWords()
    ensures WordsAndGaps(["device123"], []) && JoinUnderscore(["device123"]) == "device123"
    ensures IsGap("  ") && IsGap("  ")
    ensures "  " + Interleave(["device123"], []) + "  " == "  device123  "
  {
  }

  /** A name made of symbols only falls back to "default". */
  lemma SanitizeSymbolsOnly()
    ensures SanitizeDeviceName(Some("!!")) == "default"
  {
  }

  /** A non-empty word of `[a-z0-9]`. */
  predicate IsWord(w: string)
  {
    w != [] && forall k :: 0 <= k < |w| ==> IsIdentChar(w[k])
  }

  /** A possibly empty run of characters outside `[a-z0-9]`. */
  predicate IsGap(w: string)
  {
    forall k :: 0 <= k < |w| ==> !IsIdentChar(w[k])
  }

  /** `words[0] + seps[0] + words[1] + ... + words[n-1]`. */
  function Interleave(words: seq<string>, seps: seq<string>): string
    requires |words| >= 1 && |seps| == |words| - 1
    decreases |words|
  {
    if |words| == 1 then words[0] else words[0] + seps[0] + Interleave(words[1..], seps[1..])
  }

  /** `"_".join(words)`. */
  function JoinUnderscore(words: seq<string>): string
    requires |words| >= 1
    decreases |words|
  {
    if |words| == 1 then words[0] else words[0] + "_" + JoinUnderscore(words[1..])
  }

  /** Words and separators as the name's structure: every word and separator non-empty. */
  predicate WordsAndGaps(words: seq<string>, seps: seq<string>)
  {
    |words| >= 1 && |seps| == |words| - 1 &&
    (forall i :: 0 <= i < |words| ==> IsWord(words[i])) &&
    (forall i :: 0 <= i < |seps| ==> seps[i] != [] && IsGap(seps[i]))
  }

  lemma {:induction false} InterleaveStartsWithWord(words: seq<string>, seps: seq<string>)
    requires WordsAndGaps(words, seps)
    ensures var x := Interleave(words, seps); x != [] && x[0] == words[0][0]
  {
    if |words| > 1 {
      assert Interleave(words, seps) == words[0] + (seps[0] + Interleave(words[1..], seps[1..]));
    }
  }

  lemma {:induction false} JoinUnderscoreEnds(words: seq<string>)
    requires |words| >= 1 && forall i :: 0 <= i < |words| ==> IsWord(words[i])
    ensures var j := JoinUnderscore(words); j != [] && j[0] != '_' && j[|j| - 1] != '_'
    decreases |words|
  {
    if |words| > 1 {
      JoinUnderscoreEnds(words[1..]);
      var rest := JoinUnderscore(words[1..]);
      assert JoinUnderscore(words) == words[0] + ("_" + rest);
      assert words[0][0] != '_';
    }
    assert IsWord(words[0]) && words[0][|words[0]| - 1] != '_';
  }

  lemma {:induction false} WordsAndGapsTail(words: seq<string>, seps: seq<string>)
    requires WordsAndGaps(words, seps) && |words| > 1
    ensures WordsAndGaps(words[1..], seps[1..])
  {
    var ws, ss := words[1..], seps[1..];
    assert forall i :: 0 <= i < |ws| ==> ws[i] == words[i + 1];
    assert forall i :: 0 <= i < |ss| ==> ss[i] == seps[i + 1];
  }

  /** A word, a separator, then a rest that starts with a letter or digit. */
  lemma {:induction false} CollapseWordThenGap(w: string, sep: string, y: string)
    requires IsWord(w) && sep != [] && IsGap(sep) && y != [] && IsIdentChar(y[0])
    ensures CollapseRuns(w + sep + y) == w + "_" + CollapseRuns(y)
  {
    assert w + sep + y == w + (sep + y);
    CollapseKeepsWord(w, sep + y);
    CollapseRunToUnderscore(sep, y);
  }

  /**
   * Words separated by maximal runs outside `[a-z0-9]`, then a trailing run,
   * collapse to the words joined by `_`, plus one `_` when the trailing run
   * is not empty.
   */
  lemma {:induction false} CollapseInterleave(words: seq<string>, seps: seq<string>, trail: string)
    requires WordsAndGaps(words, seps) && IsGap(trail)
    ensures CollapseRuns(Interleave(words, seps) + trail) ==
      JoinUnderscore(words) + (if trail == [] then "" else "_")
    decreases |words|
  {
    var w := words[0];
    if |words| == 1 {
      CollapseKeepsWord(w, trail);
      if trail != [] {
        CollapseRunToUnderscore(trail, []);
        assert trail + [] == trail;
      }
    } else {
      var ws, ss := words[1..], seps[1..];
      WordsAndGapsTail(words, seps);
      var rest := Interleave(ws, ss);
      InterleaveStartsWithWord(ws, ss);
      assert (rest + trail)[0] == rest[0];
      assert Interleave(words, seps) + trail == w + seps[0] + (rest + trail);
      CollapseWordThenGap(w, seps[0], rest + trail);
      CollapseInterleave(ws, ss, trail);
      assert JoinUnderscore(words) == w + "_" + JoinUnderscore(ws);
    }
  }

  /** A leading run outside `[a-z0-9]` becomes one `_`, and none gives none. */
  lemma {:induction false} CollapseLead(lead: string, y: string)
    requires IsGap(lead) && y != [] && IsIdentChar(y[0])
    ensures CollapseRuns(lead + y) == (if lead == [] then "" else "_") + CollapseRuns(y)
  {
    if lead == [] {
      assert lead + y == y;
    } else {
      CollapseRunToUnderscore(lead, y);
    }
  }

  /** Stripping `_` from a word list joined by `_` with at most one `_` at either end. */
  lemma {:induction false} StripUnderscoreEnds(l: string, j: string, t: string)
    requires l == "" || l == "_"
    requires t == "" || t == "_"
    requires j != [] && j[0] != '_' && j[|j| - 1] != '_'
    ensures StripChars(l + j + t, {'_'}) == j
  {
    var c := l + j + t;
    var a := StripStart(c, {'_'}, 0);
    var b := StripEnd(c, {'_'}, a, |c|);
    assert c[|l|] == j[0] && c[|l| + |j| - 1] == j[|j| - 1];
    StripStartSpec(c, {'_'}, 0);
    assert a == |l|;
    StripEndSpec(c, {'_'}, a, |c|);
    assert b == |l| + |j|;
    assert c[a..b] == j;
  }

  /**
   * The separators of a sanitised name: when the lower-cased name is a
   * leading run outside `[a-z0-9]`, then words of `[a-z0-9]` separated by
   * such runs, then a trailing run, the result is the words joined by single
   * underscores.
   */
  lemma {:induction false} SanitizeJoinsWords(name: string, lead: string, words: seq<string>, seps: seq<string>, trail: string)
    requires WordsAndGaps(words, seps) && IsGap(lead) && IsGap(trail)
    requires Lower(name) == lead + Interleave(words, seps) + trail
    ensures SanitizeDeviceName(Some(name)) == JoinUnderscore(words)
  {
    var l := if lead == [] then "" else "_";
    var t := if trail == [] then "" else "_";
    CollapseNameShape(lead, words, seps, trail);
    JoinUnderscoreEnds(words);
    StripUnderscoreEnds(l, JoinUnderscore(words), t);
    assert name != "" by { assert |Lower(name)| > 0; }
  }

  /** The collapsed form of such a name: the joined words, with one `_` for each non-empty end run. */
  lemma {:induction false} CollapseNameShape(lead: string, words: seq<string>, seps: seq<string>, trail: string)
    requires WordsAndGaps(words, seps) && IsGap(lead) && IsGap(trail)
    ensures CollapseRuns(lead + Interleave(words, seps) + trail) ==
      (if lead == [] then "" else "_") + JoinUnderscore(words) + (if trail == [] then "" else "_")
  {
    var x := Interleave(words, seps);
    InterleaveStartsWithWord(words, seps);
    CollapseInterleave(words, seps, trail);
    assert lead + x + trail == lead + (x + trail);
    assert (x + trail)[0] == x[0];
    CollapseLead(lead, x + trail);
  }

  // ------------------------------------------------------ time oracles

  /** The three full date-time layouts tried in order. */
  datatype DateTimeFormat = DashedDateTime | SlashedDateTime | IsoDateTime

  /** The two time-of-day layouts tried after them. */
  datatype TimeFormat = HourMinuteSecond | HourMinute

  /**
   * The library calls the parser relies on: `datetime.strptime` for a full
   * date-time (seconds on the common time line), for a time of day (seconds
   * since midnight) and for a `%Y-%m-%d` date (its midnight), and `float()`.
   */
  datatype Parsers = Parsers(
    dateTime: (string, DateTimeFormat) -> Option<real>,
    timeOfDay: (string, TimeFormat) -> Option<real>,
    date: string -> Option<real>,
    number: string -> Option<real>)

  /** Some full date-time layout reads `v`. */
  predicate FullLayoutReads(v: string, p: Parsers)
  {
    p.dateTime(v, DashedDateTime).Some? || p.dateTime(v, SlashedDateTime).Some? || p.dateTime(v, IsoDateTime).Some?
  }

  /**
   * `_parse_time_cell`: the three full layouts in order, then `%H:%M:%S` and
   * `%H:%M` on the base date (nothing without one); a blank cell or one no
   * layout reads gives nothing.
   */
  function ParseTimeCell(cell: string, baseDate: Option<real>, p: Parsers): (r: Option<real>)
  {
    var v := Strip(cell);
    if v == "" then None
    else if p.dateTime(v, DashedDateTime).Some? then p.dateTime(v, DashedDateTime)
    else if p.dateTime(v, SlashedDateTime).Some? then p.dateTime(v, SlashedDateTime)
    else if p.dateTime(v, IsoDateTime).Some? then p.dateTime(v, IsoDateTime)
    else if p.timeOfDay(v, HourMinuteSecond).Some? then
      (if baseDate.None? then None else Some(baseDate.value + p.timeOfDay(v, HourMinuteSecond).value))
    else if p.timeOfDay(v, HourMinute).Some? then
      (if baseDate.None? then None else Some(baseDate.value + p.timeOfDay(v, HourMinute).value))
    else None
  }

  /**
   * What a time cell gives: nothing for a blank cell; a value exactly when a
   * full layout reads it, or a time-of-day layout does and there is a base
   * date; the first full layout that reads it decides; otherwise the base
   * date plus the first time of day that reads it.
   */
  lemma {:induction false} ParseTimeCellSpec(cell: string, baseDate: Option<real>, p: Parsers)
    ensures Strip(cell) == "" ==> ParseTimeCell(cell, baseDate, p).None?
    ensures var v := Strip(cell);
      ParseTimeCell(cell, baseDate, p).Some? <==> (v != "" && (FullLayoutReads(v, p) ||
        (baseDate.Some? && (p.timeOfDay(v, HourMinuteSecond).Some? || p.timeOfDay(v, HourMinute).Some?))))
    ensures var v := Strip(cell);
      v != "" && p.dateTime(v, DashedDateTime).Some? ==> ParseTimeCell(cell, baseDate, p) == p.dateTime(v, DashedDateTime)
    ensures var v := Strip(cell);
      v != "" && p.dateTime(v, DashedDateTime).None? && p.dateTime(v, SlashedDateTime).Some? ==>
        ParseTimeCell(cell, baseDate, p) == p.dateTime(v, SlashedDateTime)
    ensures var v := Strip(cell);
      (v != "" && p.dateTime(v, DashedDateTime).None? && p.dateTime(v, SlashedDateTime).None? &&
       p.dateTime(v, IsoDateTime).Some?) ==> ParseTimeCell(cell, baseDate, p) == p.dateTime(v, IsoDateTime)
    ensures var v := Strip(cell); var tod := p.timeOfDay(v, HourMinuteSecond);
      v != "" && !FullLayoutReads(v, p) && tod.Some? ==>
        ParseTimeCell(cell, baseDate, p) == (if baseDate.None? then None else Some(baseDate.value + tod.value))
    ensures var v := Strip(cell); var tod := p.timeOfDay(v, HourMinute);
      v != "" && !FullLayoutReads(v, p) && p.timeOfDay(v, HourMinuteSecond).None? && tod.Some? ==>
        ParseTimeCell(cell, baseDate, p) == (if baseDate.None? then None else Some(baseDate.value + tod.value))
  {
  }

  // ------------------------------------------------------ metadata block

  type Row = seq<string>

  /** A row whose first four normalised cells are `name,sport,date,start time`. */
  predicate IsSummaryHeader(row: Row)
  {
    |row| >= 4 && Norm(row[0]) == "name" && Norm(row[1]) == "sport" &&
    Norm(row[2]) == "date" && Norm(row[3]) == "start time"
  }

  /** How many rows a metadata search may start from: `min(len(rows) - 1, cap)`. */
  function SearchLimit(rows: seq<Row>, cap: nat): (n: nat)
    ensures n <= cap && n < |rows| + 1 && (|rows| > 0 ==> n <= |rows| - 1)
  {
    if |rows| == 0 then 0 else if |rows| - 1 < cap then |rows| - 1 else cap
  }

  /**
   * `_parse_date_from_summary` from row `i` on: the first summary header
   * followed by a row of three or more cells decides, by parsing that row's
   * third cell.
   */
  function DateFromSummaryFrom(rows: seq<Row>, i: nat, p: Parsers): (r: Option<real>)
    requires i <= SearchLimit(rows, 50)
    ensures r.Some? ==>
      exists k :: i <= k < SearchLimit(rows, 50) && IsSummaryHeader(rows[k]) &&
        |rows[k + 1]| >= 3 && r == p.date(Strip(rows[k + 1][2]))
    decreases SearchLimit(rows, 50) - i
  {
    if i == SearchLimit(rows, 50) then None
    else if IsSummaryHeader(rows[i]) && |rows[i + 1]| >= 3 then p.date(Strip(rows[i + 1][2]))
    else DateFromSummaryFrom(rows, i + 1, p)
  }

  function ParseDateFromSummary(rows: seq<Row>, p: Parsers): (r: Option<real>)
    ensures r.Some? ==>
      exists k :: 0 <= k < SearchLimit(rows, 50) && IsSummaryHeader(rows[k]) &&
        |rows[k + 1]| >= 3 && r == p.date(Strip(rows[k + 1][2]))
  {
    DateFromSummaryFrom(rows, 0, p)
  }

  lemma {:induction false} NoHeaderNoDate(rows: seq<Row>, i: nat, p: Parsers)
    requires i <= SearchLimit(rows, 50)
    requires forall k :: i <= k < SearchLimit(rows, 50) ==> !IsSummaryHeader(rows[k])
    ensures DateFromSummaryFrom(rows, i, p).None?
    decreases SearchLimit(rows, 50) - i
  {
    if i < SearchLimit(rows, 50) { NoHeaderNoDate(rows, i + 1, p); }
  }

  /** The first index of a cell whose normalised text is `label`. */
  function CellIndex(row: Row, name: string, from: nat): (r: Option<nat>)
    requires from <= |row|
    ensures r.Some? ==> from <= r.value < |row| && Norm(row[r.value]) == name
    ensures r.Some? ==> forall k :: from <= k < r.value ==> Norm(row[k]) != name
    ensures r.None? ==> forall k :: from <= k < |row| ==> Norm(row[k]) != name
    decreases |row| - from
  {
    if from == |row| then None
    else if Norm(row[from]) == name then Some(from)
    else CellIndex(row, name, from + 1)
  }

  /** Header-column layout: a `Device Name` column whose cell in the next row is not blank. */
  function DeviceFromHeaderColumn(rows: seq<Row>, i: nat): (r: Option<string>)
    requires i <= SearchLimit(rows, 50)
    ensures r.Some? ==> r.value != ""
    decreases SearchLimit(rows, 50) - i
  {
    if i == SearchLimit(rows, 50) then None
    else
      match CellIndex(rows[i], "device name", 0)
      case Some(c) =>
        if |rows[i + 1]| > c && Strip(rows[i + 1][c]) != "" then Some(Strip(rows[i + 1][c]))
        else DeviceFromHeaderColumn(rows, i + 1)
      case None => DeviceFromHeaderColumn(rows, i + 1)
  }

  /** The first of rows `j`..`stop` whose first cell is a non-blank value other than the label. */
  function DeviceBelowLabel(rows: seq<Row>, j: nat, stop: nat): (r: Option<string>)
    requires j <= stop <= |rows|
    ensures r.Some? ==> r.value != "" && Lower(r.value) != "device name"
    decreases stop - j
  {
    if j == stop then None
    else if rows[j] != [] && Strip(rows[j][0]) != "" && Norm(rows[j][0]) != "device name" then
      Some(Strip(rows[j][0]))
    else DeviceBelowLabel(rows, j + 1, stop)
  }

  /** Stand-alone layout: the first `Device Name` label row decides, looking at most five rows down. */
  function DeviceFromLabel(rows: seq<Row>, i: nat): (r: Option<string>)
    requires i <= SearchLimit(rows, 200)
    ensures r.Some? ==> r.value != ""
    decreases SearchLimit(rows, 200) - i
  {
    if i == SearchLimit(rows, 200) then None
    else if rows[i] == [] then DeviceFromLabel(rows, i + 1)
    else if Norm(rows[i][0]) == "device name" then
      DeviceBelowLabel(rows, i + 1, if i + 6 < |rows| then i + 6 else |rows|)
    else DeviceFromLabel(rows, i + 1)
  }

  /** `_extract_device_name`: the header-column layout first, then the label layout. */
  function ExtractDeviceName(rows: seq<Row>): (r: Option<string>)
    ensures r.Some? ==> r.value != ""
  {
    match DeviceFromHeaderColumn(rows, 0)
    case Some(d) => Some(d)
    case None => DeviceFromLabel(rows, 0)
  }

  // ------------------------------------------------------ data section

  /** The data-section header: `Time`, `Second`, then a heart-rate column. */
  predicate IsDataHeader(row: Row)
  {
    |row| >= 3 && Norm(row[0]) == "time" && Norm(row[1]) == "second" &&
    (StartsWith(Norm(row[2]), "hr") || Contains(Norm(row[2]), "bpm"))
  }

  /** A data row as read: its timestamp, its `Second` counter and its bpm. */
  datatype RawSample = RawSample(t: real, sec: real, bpm: int)

  /** A corrected sample. */
  datatype HrSample = HrSample(t: real, bpm: int)

  /** A data row, or nothing when it is short or any of its three cells does not parse. */
  function RawSampleOf(row: Row, baseDate: Option<real>, p: Parsers): Option<RawSample>
  {
    if |row| < 3 then None
    else
      match ParseTimeCell(row[0], baseDate, p)
      case None => None
      case Some(t) =>
        match p.number(Strip(row[1]))
        case None => None
        case Some(sec) =>
          match p.number(Strip(row[2]))
          case None => None
          case Some(hr) => Some(RawSample(t, sec, Trunc(hr)))
  }

  /** `RawSampleOf` with the base date and the parsers fixed. */
  function RowParser(baseDate: Option<real>, p: Parsers): Row -> Option<RawSample>
  {
    row => RawSampleOf(row, baseDate, p)
  }

  /** The samples `parse` gives for rows `lo`..`hi`, in row order. */
  function Kept(rows: seq<Row>, lo: nat, hi: nat, parse: Row -> Option<RawSample>): (r: seq<RawSample>)
    requires lo <= hi <= |rows|
    ensures |r| <= hi - lo
    decreases hi - lo
  {
    if hi == lo then []
    else
      Kept(rows, lo, hi - 1, parse) + SampleList(parse(rows[hi - 1]))
  }

  /** The raw samples of rows `lo`..`hi`, in row order. */
  function RawSamples(rows: seq<Row>, lo: nat, hi: nat, baseDate: Option<real>, p: Parsers): (r: seq<RawSample>)
    requires lo <= hi <= |rows|
    ensures |r| <= hi - lo
  {
    Kept(rows, lo, hi, RowParser(baseDate, p))
  }

  /** The sample of one row as a list of zero or one samples. */
  function SampleList(o: Option<RawSample>): (r: seq<RawSample>)
    ensures o.None? <==> r == []
    ensures o.Some? ==> r == [o.value]
  {
    match o
    case Some(x) => [x]
    case None => []
  }

  /** Every kept sample is what `parse` gives for a row in range. */
  lemma {:induction false} KeptFromRows(rows: seq<Row>, lo: nat, hi: nat, parse: Row -> Option<RawSample>)
    requires lo <= hi <= |rows|
    ensures forall x :: x in Kept(rows, lo, hi, parse) ==> exists k :: lo <= k < hi && parse(rows[k]) == Some(x)
    decreases hi - lo
  {
    if hi > lo { KeptFromRows(rows, lo, hi - 1, parse); }
  }

  /** Every raw sample comes from a data row in range. */
  lemma {:induction false} RawSamplesFromRows(rows: seq<Row>, lo: nat, hi: nat, baseDate: Option<real>, p: Parsers)
    requires lo <= hi <= |rows|
    ensures forall x :: x in RawSamples(rows, lo, hi, baseDate, p) ==>
      exists k :: lo <= k < hi && RawSampleOf(rows[k], baseDate, p) == Some(x)
  {
    KeptFromRows(rows, lo, hi, RowParser(baseDate, p));
  }

  /** The samples of a range are those of its two halves, one after the other. */
  lemma {:induction false} KeptSplit(rows: seq<Row>, lo: nat, m: nat, hi: nat, parse: Row -> Option<RawSample>)
    requires lo <= m <= hi <= |rows|
    ensures Kept(rows, lo, hi, parse) == Kept(rows, lo, m, parse) + Kept(rows, m, hi, parse)
    decreases hi - m
  {
    if m < hi {
      KeptSplit(rows, lo, m, hi - 1, parse);
      var a, b := Kept(rows, lo, m, parse), Kept(rows, m, hi - 1, parse);
      var c := SampleList(parse(rows[hi - 1]));
      assert (a + b) + c == a + (b + c);
    } else {
      var a := Kept(rows, lo, m, parse);
      assert a + [] == a;
    }
  }

  /** A range has no samples exactly when `parse` gives none for any of its rows. */
  lemma {:induction false} KeptEmpty(rows: seq<Row>, lo: nat, hi: nat, parse: Row -> Option<RawSample>)
    requires lo <= hi <= |rows|
    ensures Kept(rows, lo, hi, parse) == [] <==> forall k :: lo <= k < hi ==> parse(rows[k]).None?
    decreases hi - lo
  {
    if hi > lo {
      KeptEmpty(rows, lo, hi - 1, parse);
      var a, c := Kept(rows, lo, hi - 1, parse), SampleList(parse(rows[hi - 1]));
      assert Kept(rows, lo, hi, parse) == a + c;
      assert a + c == [] <==> a == [] && c == [];
    }
  }

  /**
   * Each row in range contributes its own sample, in its place: the samples
   * of the rows before it, then its sample if it has one, then the samples
   * of the rows after it.
   */
  lemma {:induction false} RawSamplesAround(rows: seq<Row>, lo: nat, k: nat, hi: nat, baseDate: Option<real>, p: Parsers)
    requires lo <= k < hi <= |rows|
    ensures RawSamples(rows, lo, hi, baseDate, p) ==
      RawSamples(rows, lo, k, baseDate, p) + SampleList(RawSampleOf(rows[k], baseDate, p)) + RawSamples(rows, k + 1, hi, baseDate, p)
    ensures RawSampleOf(rows[k], baseDate, p).Some? ==>
      RawSampleOf(rows[k], baseDate, p).value in RawSamples(rows, lo, hi, baseDate, p)
  {
    var parse := RowParser(baseDate, p);
    KeptSplit(rows, lo, k + 1, hi, parse);
    assert Kept(rows, lo, k + 1, parse) == Kept(rows, lo, k, parse) + SampleList(parse(rows[k]));
  }

  /** The samples of a range are those of its two halves, one after the other. */
  lemma {:induction false} RawSamplesSplit(rows: seq<Row>, lo: nat, m: nat, hi: nat, baseDate: Option<real>, p: Parsers)
    requires lo <= m <= hi <= |rows|
    ensures RawSamples(rows, lo, hi, baseDate, p) == RawSamples(rows, lo, m, baseDate, p) + RawSamples(rows, m, hi, baseDate, p)
  {
    KeptSplit(rows, lo, m, hi, RowParser(baseDate, p));
  }

  /** A range has no samples exactly when none of its rows parses. */
  lemma {:induction false} RawSamplesEmpty(rows: seq<Row>, lo: nat, hi: nat, baseDate: Option<real>, p: Parsers)
    requires lo <= hi <= |rows|
    ensures RawSamples(rows, lo, hi, baseDate, p) == [] <==>
      forall k :: lo <= k < hi ==> RawSampleOf(rows[k], baseDate, p).None?
  {
    KeptEmpty(rows, lo, hi, RowParser(baseDate, p));
  }

  /** Re-anchor every sample on the first one: `t0 + (s - s0)`. */
  function CorrectTimeline(raw: seq<RawSample>): (r: seq<HrSample>)
    requires |raw| > 0
    ensures |r| == |raw|
    ensures forall k :: 0 <= k < |r| ==> r[k] == HrSample(raw[0].t + (raw[k].sec - raw[0].sec), raw[k].bpm)
  {
    seq(|raw|, k requires 0 <= k < |raw| => HrSample(raw[0].t + (raw[k].sec - raw[0].sec), raw[k].bpm))
  }

  // ------------------------------------------------------ stable sort

  /** Insert after every sample whose time is not later. */
  function InsertByTime(x: HrSample, s: seq<HrSample>): (r: seq<HrSample>)
    ensures multiset(r) == multiset(s) + multiset{x}
    ensures |r| == |s| + 1
    ensures r[0] == x || (s != [] && r[0] == s[0])
  {
    if s == [] then [x]
    else if x.t < s[0].t then [x] + s
    else
      assert s == [s[0]] + s[1..];
      [s[0]] + InsertByTime(x, s[1..])
  }

  /** `samples.sort(key=lambda x: x.t)`: a stable sort on time. */
  function SortByTime(s: seq<HrSample>): (r: seq<HrSample>)
    ensures multiset(r) == multiset(s)
    ensures |r| == |s|
    decreases |s|
  {
    if s == [] then []
    else
      assert s == s[..|s| - 1] + [s[|s| - 1]];
      InsertByTime(s[|s| - 1], SortByTime(s[..|s| - 1]))
  }

  predicate SortedByTime(s: seq<HrSample>)
  {
    forall i, j :: 0 <= i < j < |s| ==> s[i].t <= s[j].t
  }

  /** The samples at time `k`, in order. */
  function AtTime(s: seq<HrSample>, k: real): seq<HrSample>
  {
    if s == [] then [] else (if s[0].t == k then [s[0]] else []) + AtTime(s[1..], k)
  }

  lemma {:induction false} AtTimeAppend(a: seq<HrSample>, b: seq<HrSample>, k: real)
    ensures AtTime(a + b, k) == AtTime(a, k) + AtTime(b, k)
    decreases |a|
  {
    if a == [] {
      assert a + b == b;
    } else {
      var h := if a[0].t == k then [a[0]] else [];
      assert (a + b)[0] == a[0] && (a + b)[1..] == a[1..] + b;
      assert AtTime(a + b, k) == h + AtTime(a[1..] + b, k);
      AtTimeAppend(a[1..], b, k);
      assert AtTime(a, k) == h + AtTime(a[1..], k);
    }
  }

  lemma {:induction false} AtTimeAbsent(s: seq<HrSample>, k: real)
    requires forall i :: 0 <= i < |s| ==> s[i].t != k
    ensures AtTime(s, k) == []
    decreases |s|
  {
    if s != [] { AtTimeAbsent(s[1..], k); }
  }

  lemma {:induction false} InsertByTimeSorted(x: HrSample, s: seq<HrSample>)
    requires SortedByTime(s)
    ensures SortedByTime(InsertByTime(x, s))
    decreases |s|
  {
    if s != [] && x.t >= s[0].t {
      InsertByTimeSorted(x, s[1..]);
      var t := InsertByTime(x, s[1..]);
      assert InsertByTime(x, s) == [s[0]] + t;
      assert s[0].t <= t[0].t;
    }
  }

  /** A sample earlier than a sorted list's head shares its time with none of it. */
  lemma {:induction false} PrependKeepsOrder(x: HrSample, s: seq<HrSample>, k: real)
    requires SortedByTime(s) && s != [] && x.t < s[0].t
    ensures AtTime([x] + s, k) == AtTime(s, k) + AtTime([x], k)
  {
    AtTimeAppend([x], s, k);
    if x.t == k {
      assert forall i :: 0 <= i < |s| ==> s[i].t != k by {
        forall i | 0 < i < |s| ensures s[0].t <= s[i].t { }
      }
      AtTimeAbsent(s, k);
    } else {
      assert AtTime([x], k) == [];
    }
  }

  /** The tail of a time-sorted list is time-sorted. */
  lemma {:induction false} SortedTail(s: seq<HrSample>)
    requires SortedByTime(s) && s != []
    ensures SortedByTime(s[1..])
  {
    var rest := s[1..];
    forall i, j | 0 <= i < j < |rest| ensures rest[i].t <= rest[j].t {
      assert rest[i] == s[i + 1] && rest[j] == s[j + 1];
    }
  }

  /** Putting the same sample in front of both sides keeps an `AtTime` split. */
  lemma {:induction false} ConsKeepsSplit(y: HrSample, t: seq<HrSample>, rest: seq<HrSample>, x: HrSample, k: real)
    requires AtTime(t, k) == AtTime(rest, k) + AtTime([x], k)
    ensures AtTime([y] + t, k) == AtTime([y] + rest, k) + AtTime([x], k)
  {
    AtTimeCons(y, t, k);
    AtTimeCons(y, rest, k);
  }

  lemma {:induction false} AtTimeCons(y: HrSample, t: seq<HrSample>, k: real)
    ensures AtTime([y] + t, k) == (if y.t == k then [y] else []) + AtTime(t, k)
  {
    assert ([y] + t)[1..] == t;
  }

  lemma {:induction false} InsertByTimeKeepsOrder(x: HrSample, s: seq<HrSample>, k: real)
    requires SortedByTime(s)
    ensures AtTime(InsertByTime(x, s), k) == AtTime(s, k) + AtTime([x], k)
    decreases |s|
  {
    if s == [] {
    } else if x.t < s[0].t {
      PrependKeepsOrder(x, s, k);
    } else {
      SortedTail(s);
      InsertByTimeKeepsOrder(x, s[1..], k);
      ConsKeepsSplit(s[0], InsertByTime(x, s[1..]), s[1..], x, k);
      assert InsertByTime(x, s) == [s[0]] + InsertByTime(x, s[1..]);
      assert s == [s[0]] + s[1..];
    }
  }

  /**
   * The sort orders by time, keeps every sample, and keeps samples that share
   * a time in their original order.
   */
  lemma {:induction false} SortByTimeStable(s: seq<HrSample>)
    ensures SortedByTime(SortByTime(s))
    ensures forall k :: AtTime(SortByTime(s), k) == AtTime(s, k)
    decreases |s|
  {
    if s != [] {
      var init, x := s[..|s| - 1], s[|s| - 1];
      var t := SortByTime(init);
      SortByTimeStable(init);
      assert SortByTime(s) == InsertByTime(x, t);
      InsertByTimeSorted(x, t);
      forall k ensures AtTime(SortByTime(s), k) == AtTime(s, k) {
        SortStepKeepsOrder(init, x, t, k);
        assert s == init + [x];
      }
    }
  }

  /** Inserting the last sample into the sorted rest keeps each time's samples in input order. */
  lemma {:induction false} SortStepKeepsOrder(init: seq<HrSample>, x: HrSample, t: seq<HrSample>, k: real)
    requires SortedByTime(t) && AtTime(t, k) == AtTime(init, k)
    ensures AtTime(InsertByTime(x, t), k) == AtTime(init + [x], k)
  {
    InsertByTimeKeepsOrder(x, t, k);
    AtTimeAppend(init, [x], k);
  }

  // ------------------------------------------------------ the parser

  datatype ParsedHrCsv = ParsedHrCsv(sourceFileName: Option<string>, deviceName: Option<string>, samples: seq<HrSample>)

  /** The errors raised while reading the CSV and merging it. */
  datatype MergeError =
    | NoDataHeader       // the `Time,Second,HR` header row is missing
    | NoValidSamples     // the data section holds no parseable row
    | NoBaseTimestamp    // the activity has no start time and no timestamped record
    | NoCsvSamples       // the CSV gave no samples

  /** The first row from `i` on that is the data header. */
  function DataHeaderFrom(rows: seq<Row>, i: nat): (r: Option<nat>)
    requires i <= |rows|
    ensures r.Some? ==> i <= r.value < |rows| && IsDataHeader(rows[r.value])
    ensures r.Some? ==> forall k :: i <= k < r.value ==> !IsDataHeader(rows[k])
    ensures r.None? ==> forall k :: i <= k < |rows| ==> !IsDataHeader(rows[k])
    decreases |rows| - i
  {
    if i == |rows| then None
    else if IsDataHeader(rows[i]) then Some(i)
    else DataHeaderFrom(rows, i + 1)
  }

  /** What `parse_offline_hr_csv` returns or raises for these rows. */
  function ParseResult(rows: seq<Row>, sourceFileName: Option<string>, p: Parsers): Result<ParsedHrCsv, MergeError>
  {
    match DataHeaderFrom(rows, 0)
    case None => Err(NoDataHeader)
    case Some(h) =>
      var raw := RawSamples(rows, h + 1, |rows|, ParseDateFromSummary(rows, p), p);
      if raw == [] then Err(NoValidSamples)
      else Ok(ParsedHrCsv(sourceFileName, ExtractDeviceName(rows), SortByTime(CorrectTimeline(raw))))
  }

  /** The header search loop of `parse_offline_hr_csv`. */
  method FindDataHeader(rows: seq<Row>) returns (header: Option<nat>)
    ensures header == DataHeaderFrom(rows, 0)
  {
    header := None;
    var i := 0;
    while i < |rows| && header.None?
      invariant 0 <= i <= |rows|
      invariant header.Some? ==> header == DataHeaderFrom(rows, 0)
      invariant header.None? ==> DataHeaderFrom(rows, i) == DataHeaderFrom(rows, 0)
    {
      if IsDataHeader(rows[i]) {
        header := Some(i);
      } else {
        assert DataHeaderFrom(rows, i) == DataHeaderFrom(rows, i + 1);
      }
      i := i + 1;
    }
  }

  /** The data-row loop: every parseable row after the header, in row order. */
  method CollectRawSamples(rows: seq<Row>, from: nat, baseDate: Option<real>, p: Parsers)
    returns (raw: seq<RawSample>)
    requires from <= |rows|
    ensures raw == RawSamples(rows, from, |rows|, baseDate, p)
  {
    raw := [];
    var j := from;
    while j < |rows|
      invariant from <= j <= |rows|
      invariant raw == RawSamples(rows, from, j, baseDate, p)
    {
      var sample := RawSampleOf(rows[j], baseDate, p);
      if sample.Some? {
        raw := raw + [sample.value];
      }
      j := j + 1;
    }
  }

  /** The correction loop: `t = t0 + (sec - s0)` for every sample. */
  method CorrectSamples(raw: seq<RawSample>) returns (samples: seq<HrSample>)
    requires |raw| > 0
    ensures samples == CorrectTimeline(raw)
  {
    var t0, s0 := raw[0].t, raw[0].sec;
    samples := [];
    var k := 0;
    while k < |raw|
      invariant 0 <= k <= |raw| && |samples| == k
      invariant forall m :: 0 <= m < k ==> samples[m] == HrSample(t0 + (raw[m].sec - s0), raw[m].bpm)
    {
      samples := samples + [HrSample(t0 + (raw[k].sec - s0), raw[k].bpm)];
      k := k + 1;
    }
  }

  /**
   * `parse_offline_hr_csv`: locate the header, collect the parseable rows
   * after it, re-anchor their times on the `Second` counter, sort by time.
   */
  method ParseOfflineHrCsv(rows: seq<Row>, sourceFileName: Option<string>, p: Parsers)
    returns (r: Result<ParsedHrCsv, MergeError>)
    ensures r == ParseResult(rows, sourceFileName, p)
  {
    var baseDate := ParseDateFromSummary(rows, p);
    var deviceName := ExtractDeviceName(rows);
    var header := FindDataHeader(rows);
    if header.None? {
      return Err(NoDataHeader);
    }
    var raw := CollectRawSamples(rows, header.value + 1, baseDate, p);
    if raw == [] {
      return Err(NoValidSamples);
    }
    var samples := CorrectSamples(raw);
    r := Ok(ParsedHrCsv(sourceFileName, deviceName, SortByTime(samples)));
  }

  /** The parser fails for want of a header exactly when no row is one. */
  lemma {:induction false} ParseResultNoHeader(rows: seq<Row>, sourceFileName: Option<string>, p: Parsers)
    ensures ParseResult(rows, sourceFileName, p) == Err(NoDataHeader) <==>
      forall k :: 0 <= k < |rows| ==> !IsDataHeader(rows[k])
  {
  }

  /**
   * The parser fails for want of samples exactly when there is a header and
   * no row after it parses.
   */
  lemma {:induction false} ParseResultNoSamples(rows: seq<Row>, sourceFileName: Option<string>, p: Parsers)
    ensures ParseResult(rows, sourceFileName, p) == Err(NoValidSamples) <==>
      DataHeaderFrom(rows, 0).Some? &&
      forall k :: DataHeaderFrom(rows, 0).value < k < |rows| ==>
        RawSampleOf(rows[k], ParseDateFromSummary(rows, p), p).None?
  {
    if DataHeaderFrom(rows, 0).Some? {
      var h := DataHeaderFrom(rows, 0).value;
      RawSamplesEmpty(rows, h + 1, |rows|, ParseDateFromSummary(rows, p), p);
    }
  }

  /** The corrected samples of the rows after the header at `h`. */
  function Corrected(rows: seq<Row>, h: nat, p: Parsers): seq<HrSample>
    requires h < |rows|
  {
    var raw := RawSamples(rows, h + 1, |rows|, ParseDateFromSummary(rows, p), p);
    if raw == [] then [] else CorrectTimeline(raw)
  }

  /**
   * A successful parse keeps the file name and the extracted device name and
   * yields a non-empty, time-ordered list that is the corrected samples
   * reordered, samples sharing a time kept in row order.
   */
  lemma {:induction false} ParseResultSamples(rows: seq<Row>, sourceFileName: Option<string>, p: Parsers)
    requires ParseResult(rows, sourceFileName, p).Ok?
    ensures var r := ParseResult(rows, sourceFileName, p).value;
      r.sourceFileName == sourceFileName && r.deviceName == ExtractDeviceName(rows) &&
      |r.samples| > 0 && SortedByTime(r.samples)
    ensures DataHeaderFrom(rows, 0).Some? &&
      var h := DataHeaderFrom(rows, 0).value;
      var r := ParseResult(rows, sourceFileName, p).value;
      |Corrected(rows, h, p)| > 0 && multiset(r.samples) == multiset(Corrected(rows, h, p)) &&
      forall k :: AtTime(r.samples, k) == AtTime(Corrected(rows, h, p), k)
  {
    var h := DataHeaderFrom(rows, 0).value;
    SortByTimeStable(Corrected(rows, h, p));
  }
}

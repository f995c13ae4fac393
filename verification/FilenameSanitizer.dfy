/**
 `sanitizeFilename` of src/lib/workspace-sync-service.ts:60-140, stage by stage, over UTF-16
 code units. Its results are exactly the clean names, and it leaves a clean name as it is.
 */
module FilenameSanitizer {
  import JsText

  newtype CodeUnit = c: int | 0 <= c < 0x1_0000

  type Text = seq<CodeUnit>

  const UNDERSCORE: CodeUnit := 95
  const DOT: CodeUnit := 46
  const MAX_LENGTH: nat := 200

  /** "file" */
  const FILE: Text := [102, 105, 108, 101]

  /******* Character classes *******/

  /** `[<>:"/\\|?*]` */
  predicate IsUnsafe(c: CodeUnit) {
    c == 60 || c == 62 || c == 58 || c == 34 || c == 47 || c == 92 || c == 124 || c == 63 || c == 42
  }

  predicate IsSpace(c: CodeUnit) {
    JsText.IsSpaceCode(c as int)
  }

  predicate IsUnderscore(c: CodeUnit) {
    c == UNDERSCORE
  }

  predicate IsDot(c: CodeUnit) {
    c == DOT
  }

  predicate IsAlphanumeric(c: CodeUnit) {
    48 <= c <= 57 || 65 <= c <= 90 || 97 <= c <= 122
  }

  function Lower(c: CodeUnit): CodeUnit {
    if 65 <= c <= 90 then c + 32 else c
  }

  /******* What the regular expressions do *******/

  /** `replace(/[...]/g, '_')` */
  function ReplaceUnsafeChars(s: Text): Text {
    if s == [] then []
    else [if IsUnsafe(s[0]) then UNDERSCORE else s[0]] + ReplaceUnsafeChars(s[1..])
  }

  /** `replace(/p+/g, r)`: each maximal run of units in `p` becomes one `r`. */
  function ReplaceRuns(s: Text, p: CodeUnit -> bool, r: CodeUnit): Text {
    if s == [] then []
    else if !p(s[0]) then [s[0]] + ReplaceRuns(s[1..], p, r)
    else if |s| > 1 && p(s[1]) then ReplaceRuns(s[1..], p, r)
    else [r] + ReplaceRuns(s[1..], p, r)
  }

  /** `replace(/\.{2}/g, '_')` */
  function ReplaceDotPairs(s: Text): Text {
    if |s| < 2 then s
    else if s[0] == DOT && s[1] == DOT then [UNDERSCORE] + ReplaceDotPairs(s[2..])
    else [s[0]] + ReplaceDotPairs(s[1..])
  }

  function StripStart(s: Text, p: CodeUnit -> bool): Text {
    if s != [] && p(s[0]) then StripStart(s[1..], p) else s
  }

  function StripEnd(s: Text, p: CodeUnit -> bool): Text {
    if s != [] && p(s[|s| - 1]) then StripEnd(s[..|s| - 1], p) else s
  }

  /** `trim()` with `p` the white space, `replace(/^_+|_+$/g, '')` with `p` the underscore. */
  function Strip(s: Text, p: CodeUnit -> bool): Text {
    StripEnd(StripStart(s, p), p)
  }

  /** `replace(/\.+/g, '')` */
  function RemoveDots(s: Text): Text {
    if s == [] then [] else (if s[0] == DOT then [] else [s[0]]) + RemoveDots(s[1..])
  }

  /** `replace(/[^A-Za-z0-9]/g, '').toLowerCase()` */
  function KeepAlphanumeric(s: Text): Text {
    if s == [] then []
    else (if IsAlphanumeric(s[0]) then [Lower(s[0])] else []) + KeepAlphanumeric(s[1..])
  }

  function LimitLength(s: Text): Text {
    if |s| <= MAX_LENGTH then s else s[..MAX_LENGTH]
  }

  /** `lastIndexOf('.')` */
  function LastDot(s: Text): (k: int)
    ensures -1 <= k < |s|
    ensures k >= 0 ==> s[k] == DOT
  {
    if s == [] then -1
    else if s[|s| - 1] == DOT then |s| - 1
    else LastDot(s[..|s| - 1])
  }

  /******* The stages *******/

  function SanitizeBase(base: Text): Text {
    var cleaned := Strip(ReplaceRuns(base, IsDot, UNDERSCORE), IsUnderscore);
    if cleaned == [] then FILE else cleaned
  }

  function SanitizeExtension(ext: Text): Text {
    KeepAlphanumeric(RemoveDots(ext))
  }

  function Recombine(base: Text, ext: Text): Text {
    if ext != [] then base + [DOT] + ext else base
  }

  function FinalCleanup(name: Text): Text {
    var dots := ReplaceDotPairs(ReplaceRuns(name, IsDot, DOT));
    var safe := Strip(ReplaceRuns(dots, IsUnderscore, UNDERSCORE), IsUnderscore);
    LimitLength(if safe == [] then FILE else safe)
  }

  /** Steps 2 to 5. */
  function Prepare(name: Text): Text {
    var step3 := ReplaceRuns(ReplaceUnsafeChars(name), IsSpace, UNDERSCORE);
    LimitLength(Strip(ReplaceRuns(step3, IsUnderscore, UNDERSCORE), IsSpace))
  }

  /** `splitBaseAndExt`, the two parts sanitized and put together again. */
  function CleanParts(name: Text): Text {
    var k := LastDot(name);
    if k > 0 then Recombine(SanitizeBase(name[..k]), SanitizeExtension(name[k + 1..]))
    else Recombine(SanitizeBase(name), SanitizeExtension([]))
  }

  /** `nfkc` stands for `normalize('NFKC')`. */
  function Sanitize(name: Text, nfkc: Text -> Text): Text {
    FinalCleanup(CleanParts(Prepare(nfkc(name))))
  }

  /******* Clean names *******/

  /** A unit that may stand in the base of a clean name. */
  predicate IsPlain(c: CodeUnit) {
    !IsUnsafe(c) && !IsSpace(c)
  }

  predicate AllPlain(s: Text) {
    forall k :: 0 <= k < |s| ==> IsPlain(s[k])
  }

  predicate NoDot(s: Text) {
    forall k :: 0 <= k < |s| ==> s[k] != DOT
  }

  predicate NoDouble(s: Text, p: CodeUnit -> bool) {
    forall k :: 0 < k < |s| ==> !(p(s[k - 1]) && p(s[k]))
  }

  predicate BareEdges(s: Text) {
    s != [] && s[0] != UNDERSCORE && s[|s| - 1] != UNDERSCORE
  }

  predicate CleanBase(base: Text) {
    AllPlain(base) && NoDot(base) && NoDouble(base, IsUnderscore) && BareEdges(base)
  }

  predicate CleanExtension(ext: Text) {
    forall k :: 0 <= k < |ext| ==> IsAlphanumeric(ext[k]) && Lower(ext[k]) == ext[k]
  }

  /** `base` or `base.ext`, of 1 to 200 units. */
  ghost predicate Clean(name: Text) {
    && 1 <= |name| <= MAX_LENGTH
    && exists base: Text, ext: Text :: CleanBase(base) && CleanExtension(ext) && name == Recombine(base, ext)
  }

  /******* Runs *******/

  lemma {:induction false} RunsMadeFrom(s: Text, p: CodeUnit -> bool, r: CodeUnit)
    ensures forall c :: c in ReplaceRuns(s, p, r) ==> (c in s && !p(c)) || c == r
    ensures |ReplaceRuns(s, p, r)| <= |s|
  {
    if s != [] {
      RunsMadeFrom(s[1..], p, r);
      assert s == [s[0]] + s[1..];
    }
  }

  lemma {:induction false} RunsFirst(s: Text, p: CodeUnit -> bool, r: CodeUnit)
    requires s != []
    ensures ReplaceRuns(s, p, r) != []
    ensures ReplaceRuns(s, p, r)[0] == if p(s[0]) then r else s[0]
  {
    if |s| > 1 && p(s[0]) && p(s[1]) {
      RunsFirst(s[1..], p, r);
    }
  }

  lemma {:induction false} RunsLast(s: Text, p: CodeUnit -> bool, r: CodeUnit)
    requires s != []
    ensures var t := ReplaceRuns(s, p, r);
            t != [] && t[|t| - 1] == if p(s[|s| - 1]) then r else s[|s| - 1]
  {
    if |s| > 1 {
      RunsLast(s[1..], p, r);
    } else {
      assert s[1..] == [];
    }
  }

  lemma {:induction false} RunsNoDouble(s: Text, p: CodeUnit -> bool, r: CodeUnit)
    requires p(r)
    ensures NoDouble(ReplaceRuns(s, p, r), p)
  {
    if s != [] {
      RunsNoDouble(s[1..], p, r);
      if |s| > 1 {
        RunsFirst(s[1..], p, r);
      }
    }
  }

  lemma {:induction false} RunsIdentity(s: Text, p: CodeUnit -> bool, r: CodeUnit)
    requires NoDouble(s, p) && forall k :: 0 <= k < |s| && p(s[k]) ==> s[k] == r
    ensures ReplaceRuns(s, p, r) == s
  {
    if s != [] {
      assert NoDouble(s[1..], p) by {
        forall k | 0 < k < |s[1..]|
          ensures !(p(s[1..][k - 1]) && p(s[1..][k]))
        {
          assert !(p(s[k]) && p(s[k + 1]));
        }
      }
      RunsIdentity(s[1..], p, r);
      assert s == [s[0]] + s[1..];
      if |s| > 1 {
        assert !(p(s[1 - 1]) && p(s[1]));
      }
    }
  }

  lemma {:induction false} RunsAcross(a: Text, x: CodeUnit, b: Text, p: CodeUnit -> bool, r: CodeUnit)
    requires !p(x)
    ensures ReplaceRuns(a + [x] + b, p, r) == ReplaceRuns(a, p, r) + [x] + ReplaceRuns(b, p, r)
  {
    var s := a + [x] + b;
    if a == [] {
      assert s == [x] + b && s[1..] == b;
    } else {
      assert s[1..] == a[1..] + [x] + b;
      RunsAcross(a[1..], x, b, p, r);
    }
  }

  lemma {:induction false} PairsIdentity(s: Text)
    requires NoDouble(s, IsDot)
    ensures ReplaceDotPairs(s) == s
  {
    if |s| >= 2 {
      assert !(IsDot(s[1 - 1]) && IsDot(s[1]));
      assert NoDouble(s[1..], IsDot) by {
        forall k | 0 < k < |s[1..]|
          ensures !(IsDot(s[1..][k - 1]) && IsDot(s[1..][k]))
        {
          assert !(IsDot(s[k]) && IsDot(s[k + 1]));
        }
      }
      PairsIdentity(s[1..]);
    }
  }

  /******* Strips *******/

  lemma {:induction false} StripStartSuffix(s: Text, p: CodeUnit -> bool)
    ensures var t := StripStart(s, p);
            && |t| <= |s| && t == s[|s| - |t|..]
            && (t != [] ==> !p(t[0]))
  {
    if s != [] && p(s[0]) {
      StripStartSuffix(s[1..], p);
    }
  }

  lemma {:induction false} StripEndPrefix(s: Text, p: CodeUnit -> bool)
    ensures var t := StripEnd(s, p);
            && |t| <= |s| && t == s[..|t|]
            && (t != [] ==> !p(t[|t| - 1]))
  {
    if s != [] && p(s[|s| - 1]) {
      StripEndPrefix(s[..|s| - 1], p);
    }
  }

  /** Stripping yields a stretch of the text, with bare edges. */
  lemma StripFacts(s: Text, p: CodeUnit -> bool) returns (lo: nat)
    ensures var t := Strip(s, p);
            && lo + |t| <= |s| && t == s[lo..lo + |t|]
            && (t != [] ==> !p(t[0]) && !p(t[|t| - 1]))
  {
    var u := StripStart(s, p);
    StripStartSuffix(s, p);
    StripEndPrefix(u, p);
    lo := |s| - |u|;
  }

  lemma StripIdentity(s: Text, p: CodeUnit -> bool)
    requires s != [] ==> !p(s[0]) && !p(s[|s| - 1])
    ensures Strip(s, p) == s
  {
  }

  /******* Preparation *******/

  lemma {:induction false} UnsafeReplaced(s: Text)
    ensures |ReplaceUnsafeChars(s)| == |s|
    ensures forall c :: c in ReplaceUnsafeChars(s) ==> !IsUnsafe(c)
  {
    if s != [] {
      UnsafeReplaced(s[1..]);
    }
  }

  lemma {:induction false} UnsafeIdentity(s: Text)
    requires forall k :: 0 <= k < |s| ==> !IsUnsafe(s[k])
    ensures ReplaceUnsafeChars(s) == s
  {
    if s != [] {
      UnsafeIdentity(s[1..]);
    }
  }

  lemma SpacesReplaced(s: Text)
    requires forall c :: c in s ==> !IsUnsafe(c)
    ensures AllPlain(ReplaceRuns(s, IsSpace, UNDERSCORE))
  {
    var t := ReplaceRuns(s, IsSpace, UNDERSCORE);
    RunsMadeFrom(s, IsSpace, UNDERSCORE);
    forall k | 0 <= k < |t|
      ensures IsPlain(t[k])
    {
      assert t[k] in t;
    }
  }

  lemma CollapsedIsPlain(s: Text)
    requires AllPlain(s)
    ensures AllPlain(ReplaceRuns(s, IsUnderscore, UNDERSCORE))
  {
    var t := ReplaceRuns(s, IsUnderscore, UNDERSCORE);
    RunsMadeFrom(s, IsUnderscore, UNDERSCORE);
    forall k | 0 <= k < |t|
      ensures IsPlain(t[k])
    {
      assert t[k] in t;
    }
  }

  /** After steps 2 to 5 the text is plain, without double underscores, and at most 200 units long. */
  lemma PrepareFacts(name: Text)
    ensures AllPlain(Prepare(name)) && NoDouble(Prepare(name), IsUnderscore) && |Prepare(name)| <= MAX_LENGTH
  {
    var step2 := ReplaceUnsafeChars(name);
    var step3 := ReplaceRuns(step2, IsSpace, UNDERSCORE);
    var step4 := ReplaceRuns(step3, IsUnderscore, UNDERSCORE);
    UnsafeReplaced(name);
    SpacesReplaced(step2);
    CollapsedIsPlain(step3);
    RunsNoDouble(step3, IsUnderscore, UNDERSCORE);
    assert step4 != [] ==> IsPlain(step4[0]) && IsPlain(step4[|step4| - 1]);
    StripIdentity(step4, IsSpace);
  }

  lemma PrepareIdentity(name: Text)
    requires AllPlain(name) && NoDouble(name, IsUnderscore) && |name| <= MAX_LENGTH
    ensures Prepare(name) == name
  {
    assert forall k :: 0 <= k < |name| ==> IsPlain(name[k]);
    UnsafeIdentity(name);
    RunsIdentity(name, IsSpace, UNDERSCORE);
    RunsIdentity(name, IsUnderscore, UNDERSCORE);
    StripIdentity(name, IsSpace);
  }

  /******* Base and extension *******/

  /** A base that is clean but for double underscores. */
  predicate NearlyClean(base: Text) {
    AllPlain(base) && NoDot(base) && BareEdges(base)
  }

  lemma BaseFacts(base: Text)
    requires AllPlain(base)
    ensures NearlyClean(SanitizeBase(base))
    ensures |SanitizeBase(base)| <= |base| || SanitizeBase(base) == FILE
  {
    var dotless := ReplaceRuns(base, IsDot, UNDERSCORE);
    RunsMadeFrom(base, IsDot, UNDERSCORE);
    forall k | 0 <= k < |dotless|
      ensures IsPlain(dotless[k]) && dotless[k] != DOT
    {
      assert dotless[k] in dotless;
    }
    var lo := StripFacts(dotless, IsUnderscore);
  }

  lemma {:induction false} AlphanumericFacts(s: Text)
    ensures CleanExtension(KeepAlphanumeric(s)) && |KeepAlphanumeric(s)| <= |s|
    ensures CleanExtension(s) ==> KeepAlphanumeric(s) == s
  {
    if s != [] {
      AlphanumericFacts(s[1..]);
      assert s == [s[0]] + s[1..];
    }
  }

  lemma {:induction false} RemoveDotsFacts(s: Text)
    ensures |RemoveDots(s)| <= |s|
    ensures NoDot(s) ==> RemoveDots(s) == s
  {
    if s != [] {
      RemoveDotsFacts(s[1..]);
      assert s == [s[0]] + s[1..];
    }
  }

  lemma ExtensionFacts(ext: Text)
    ensures CleanExtension(SanitizeExtension(ext)) && |SanitizeExtension(ext)| <= |ext|
  {
    RemoveDotsFacts(ext);
    AlphanumericFacts(RemoveDots(ext));
  }

  lemma ExtensionIdentity(ext: Text)
    requires CleanExtension(ext)
    ensures SanitizeExtension(ext) == ext
  {
    ExtensionHasNeither(ext);
    RemoveDotsFacts(ext);
    AlphanumericFacts(ext);
  }

  /** The parts come together as a nearly clean base and a clean extension, too long at most behind "file". */
  lemma PartsFacts(name: Text) returns (base: Text, ext: Text)
    requires AllPlain(name) && |name| <= MAX_LENGTH
    ensures CleanParts(name) == Recombine(base, ext)
    ensures NearlyClean(base) && CleanExtension(ext)
    ensures |CleanParts(name)| <= MAX_LENGTH || |base| == |FILE|
  {
    var k := LastDot(name);
    if k > 0 {
      base, ext := SanitizeBase(name[..k]), SanitizeExtension(name[k + 1..]);
      BaseFacts(name[..k]);
      ExtensionFacts(name[k + 1..]);
    } else {
      base, ext := SanitizeBase(name), SanitizeExtension([]);
      BaseFacts(name);
      ExtensionFacts([]);
    }
  }

  /******* Final cleanup *******/

  lemma ExtensionHasNeither(ext: Text)
    requires CleanExtension(ext)
    ensures forall k :: 0 <= k < |ext| ==> ext[k] != DOT && ext[k] != UNDERSCORE
  {
  }

  lemma OneDot(base: Text, ext: Text)
    requires NoDot(base) && CleanExtension(ext)
    ensures NoDouble(Recombine(base, ext), IsDot)
    ensures ReplaceDotPairs(ReplaceRuns(Recombine(base, ext), IsDot, DOT)) == Recombine(base, ext)
  {
    ExtensionHasNeither(ext);
    RunsIdentity(Recombine(base, ext), IsDot, DOT);
    PairsIdentity(Recombine(base, ext));
  }

  lemma CollapseBase(base: Text)
    requires NearlyClean(base)
    ensures CleanBase(ReplaceRuns(base, IsUnderscore, UNDERSCORE))
    ensures |ReplaceRuns(base, IsUnderscore, UNDERSCORE)| <= |base|
  {
    var t := ReplaceRuns(base, IsUnderscore, UNDERSCORE);
    RunsMadeFrom(base, IsUnderscore, UNDERSCORE);
    RunsNoDouble(base, IsUnderscore, UNDERSCORE);
    RunsFirst(base, IsUnderscore, UNDERSCORE);
    RunsLast(base, IsUnderscore, UNDERSCORE);
    forall k | 0 <= k < |t|
      ensures IsPlain(t[k]) && t[k] != DOT
    {
      assert t[k] in t;
    }
  }

  lemma CollapseName(base: Text, ext: Text)
    requires NearlyClean(base) && CleanExtension(ext)
    ensures ReplaceRuns(Recombine(base, ext), IsUnderscore, UNDERSCORE)
         == Recombine(ReplaceRuns(base, IsUnderscore, UNDERSCORE), ext)
  {
    if ext != [] {
      ExtensionHasNeither(ext);
      RunsAcross(base, DOT, ext, IsUnderscore, UNDERSCORE);
      RunsIdentity(ext, IsUnderscore, UNDERSCORE);
    }
  }

  /** Cutting a name at 200 units leaves its base whole, if that is short. */
  lemma CutName(base: Text, ext: Text) returns (ext': Text)
    requires CleanBase(base) && CleanExtension(ext)
    requires |Recombine(base, ext)| <= MAX_LENGTH || |base| <= |FILE|
    ensures CleanExtension(ext') && LimitLength(Recombine(base, ext)) == Recombine(base, ext')
  {
    if |Recombine(base, ext)| <= MAX_LENGTH {
      ext' := ext;
    } else {
      ext' := ext[..MAX_LENGTH - |base| - 1];
    }
  }

  /** On parts that are nearly clean, the last stage collapses the underscores of the base and cuts. */
  lemma FinalIs(base: Text, ext: Text)
    requires NearlyClean(base) && CleanExtension(ext)
    ensures FinalCleanup(Recombine(base, ext))
         == LimitLength(Recombine(ReplaceRuns(base, IsUnderscore, UNDERSCORE), ext))
  {
    var base' := ReplaceRuns(base, IsUnderscore, UNDERSCORE);
    OneDot(base, ext);
    CollapseBase(base);
    CollapseName(base, ext);
    ExtensionHasNeither(ext);
    StripIdentity(Recombine(base', ext), IsUnderscore);
  }

  lemma FinalFacts(base: Text, ext: Text)
    requires NearlyClean(base) && CleanExtension(ext)
    requires |Recombine(base, ext)| <= MAX_LENGTH || |base| <= |FILE|
    ensures Clean(FinalCleanup(Recombine(base, ext)))
  {
    FinalIs(base, ext);
    CollapseBase(base);
    var ext' := CutName(ReplaceRuns(base, IsUnderscore, UNDERSCORE), ext);
  }

  /******* Main results *******/

  /** Whatever the name, and whatever normalization does, the result is clean. */
  lemma SanitizeIsClean(name: Text, nfkc: Text -> Text)
    ensures Clean(Sanitize(name, nfkc))
  {
    PrepareFacts(nfkc(name));
    var base, ext := PartsFacts(Prepare(nfkc(name)));
    FinalFacts(base, ext);
  }

  lemma {:induction false} LastDotOf(base: Text, ext: Text)
    requires NoDot(ext)
    ensures LastDot(base + [DOT] + ext) == |base|
    decreases |ext|
  {
    var s := base + [DOT] + ext;
    if ext != [] {
      assert s[..|s| - 1] == base + [DOT] + ext[..|ext| - 1];
      LastDotOf(base, ext[..|ext| - 1]);
    }
  }

  lemma {:induction false} NoLastDot(s: Text)
    requires NoDot(s)
    ensures LastDot(s) == -1
  {
    if s != [] {
      NoLastDot(s[..|s| - 1]);
    }
  }

  lemma BaseIdentity(base: Text)
    requires CleanBase(base)
    ensures SanitizeBase(base) == base
  {
    RunsIdentity(base, IsDot, UNDERSCORE);
    StripIdentity(base, IsUnderscore);
  }

  lemma PartsIdentity(base: Text, ext: Text)
    requires CleanBase(base) && CleanExtension(ext)
    ensures CleanParts(Recombine(base, ext)) == Recombine(base, ext)
  {
    BaseIdentity(base);
    ExtensionIdentity(ext);
    ExtensionHasNeither(ext);
    if ext == [] {
      NoLastDot(base);
    } else {
      var s := base + [DOT] + ext;
      LastDotOf(base, ext);
      assert s[..|base|] == base && s[|base| + 1..] == ext;
    }
  }

  lemma RecombinedIsPlain(base: Text, ext: Text)
    requires CleanBase(base) && CleanExtension(ext)
    ensures AllPlain(Recombine(base, ext)) && NoDouble(Recombine(base, ext), IsUnderscore)
  {
    ExtensionHasNeither(ext);
    assert forall k :: 0 <= k < |ext| ==> IsAlphanumeric(ext[k]);
  }

  lemma FinalIdentity(base: Text, ext: Text)
    requires CleanBase(base) && CleanExtension(ext) && |Recombine(base, ext)| <= MAX_LENGTH
    ensures FinalCleanup(Recombine(base, ext)) == Recombine(base, ext)
  {
    OneDot(base, ext);
    RecombinedIsPlain(base, ext);
    RunsIdentity(Recombine(base, ext), IsUnderscore, UNDERSCORE);
    ExtensionHasNeither(ext);
    StripIdentity(Recombine(base, ext), IsUnderscore);
  }

  /** Among the names that normalization leaves alone, sanitizing leaves alone exactly the clean ones. */
  lemma FixedExactlyWhenClean(name: Text, nfkc: Text -> Text)
    requires nfkc(name) == name
    ensures Sanitize(name, nfkc) == name <==> Clean(name)
  {
    SanitizeIsClean(name, nfkc);
    if Clean(name) {
      var base: Text, ext: Text :| CleanBase(base) && CleanExtension(ext) && name == Recombine(base, ext);
      RecombinedIsPlain(base, ext);
      PrepareIdentity(name);
      PartsIdentity(base, ext);
      FinalIdentity(base, ext);
    }
  }

  /** Sanitizing twice is sanitizing once, if normalization leaves the first result alone. */
  lemma SanitizeIdempotent(name: Text, nfkc: Text -> Text)
    requires nfkc(Sanitize(name, nfkc)) == Sanitize(name, nfkc)
    ensures Sanitize(Sanitize(name, nfkc), nfkc) == Sanitize(name, nfkc)
  {
    SanitizeIsClean(name, nfkc);
    FixedExactlyWhenClean(Sanitize(name, nfkc), nfkc);
  }

  /******* The stages as one pass *******/

  /** The nine characters that file systems refuse, white space, and the underscore. */
  predicate IsReplaced(c: CodeUnit) {
    c in {34, 42, 47, 58, 60, 62, 63, 92, 124} || IsSpace(c) || c == 95
  }

  /** In a base, dots stand between words as well. */
  predicate IsGap(c: CodeUnit) {
    IsReplaced(c) || c == 46
  }

  /** How many units come before the first gap. */
  function WordLength(s: Text): (n: nat)
    ensures n <= |s|
    ensures forall k :: 0 <= k < n ==> !IsGap(s[k])
    ensures n < |s| ==> IsGap(s[n])
  {
    if s == [] || IsGap(s[0]) then 0 else 1 + WordLength(s[1..])
  }

  /** The words of a base, with one underscore between neighbours. */
  function Words(s: Text): Text
    decreases |s|
  {
    if s == [] then []
    else if IsGap(s[0]) then Words(s[1..])
    else
      var n := WordLength(s);
      if Words(s[n..]) == [] then s[..n] else s[..n] + [95] + Words(s[n..])
  }

  /** Digits and lower-case letters as they are, upper-case letters lower, and nothing else. */
  function Letters(ext: Text): Text {
    if ext == [] then []
    else
      var c := ext[|ext| - 1];
      Letters(ext[..|ext| - 1]) +
      (if 65 <= c <= 90 then [c + 32] else if 48 <= c <= 57 || 97 <= c <= 122 then [c] else [])
  }

  function OrFile(base: Text): Text {
    if base == [] then FILE else base
  }

  /** A name of at most 200 units in one pass: the words of what precedes the last dot, and the letters behind it. */
  function OnePass(name: Text): Text {
    var k := LastDot(name);
    if k <= 0 then OrFile(Words(name))
    else
      var whole := Recombine(OrFile(Words(name[..k])), Letters(name[k + 1..]));
      if |whole| <= 200 then whole else whole[..200]
  }

  lemma ClassesApart(c: CodeUnit)
    ensures IsUnsafe(c) <==> c in {34, 42, 47, 58, 60, 62, 63, 92, 124}
    ensures IsReplaced(c) <==> IsUnsafe(c) || IsSpace(c) || IsUnderscore(c)
    ensures IsAlphanumeric(c) ==> !IsGap(c)
    ensures !IsReplaced(46)
  {
  }

  /** Replacing runs of one class and then of another, with a unit of the latter, replaces runs of both. */
  lemma {:induction false} RunsTwice(s: Text, p: CodeUnit -> bool, q: CodeUnit -> bool, both: CodeUnit -> bool,
                                     r: CodeUnit)
    requires q(r) && forall c :: both(c) <==> p(c) || q(c)
    ensures ReplaceRuns(ReplaceRuns(s, p, r), q, r) == ReplaceRuns(s, both, r)
  {
    if s != [] {
      RunsTwice(s[1..], p, q, both, r);
      if |s| > 1 {
        RunsFirst(s[1..], p, r);
      }
      var t := ReplaceRuns(s[1..], p, r);
      assert ([r] + t)[1..] == t && ([s[0]] + t)[1..] == t;
    }
  }

  /** So does replacing units of the first class one by one. */
  lemma {:induction false} UnsafeThenRuns(s: Text, q: CodeUnit -> bool, both: CodeUnit -> bool)
    requires q(UNDERSCORE) && forall c :: both(c) <==> IsUnsafe(c) || q(c)
    ensures ReplaceRuns(ReplaceUnsafeChars(s), q, UNDERSCORE) == ReplaceRuns(s, both, UNDERSCORE)
  {
    if s != [] {
      UnsafeThenRuns(s[1..], q, both);
      var t := ReplaceUnsafeChars(s[1..]);
      assert ReplaceUnsafeChars(s)[1..] == t;
    }
  }

  /** Steps 2 to 5 come to one replacement of runs, cut at 200 units. */
  lemma PrepareAtOnce(name: Text)
    ensures Prepare(name) == LimitLength(ReplaceRuns(name, IsReplaced, UNDERSCORE))
  {
    var either := c => IsSpace(c) || IsUnderscore(c);
    var step2 := ReplaceUnsafeChars(name);
    RunsTwice(step2, IsSpace, IsUnderscore, either, UNDERSCORE);
    forall c
      ensures IsReplaced(c) <==> IsUnsafe(c) || either(c)
    {
      ClassesApart(c);
    }
    UnsafeThenRuns(name, either, IsReplaced);
    var step4 := ReplaceRuns(name, IsReplaced, UNDERSCORE);
    NoneReplacedBut95(name);
    StripIdentity(step4, IsSpace);
  }

  lemma NoneReplacedBut95(s: Text)
    ensures forall c :: c in ReplaceRuns(s, IsReplaced, UNDERSCORE) ==> !IsReplaced(c) || c == 95
    ensures forall c :: c in ReplaceRuns(s, IsReplaced, UNDERSCORE) ==> !IsSpace(c)
  {
    RunsMadeFrom(s, IsReplaced, UNDERSCORE);
  }

  /******* Words *******/

  lemma {:induction false} StripEndJoin(a: Text, b: Text, p: CodeUnit -> bool)
    requires a != [] && !p(a[|a| - 1])
    ensures StripEnd(a + b, p) == a + StripEnd(b, p)
  {
    if b == [] {
      assert a + b == a;
    } else {
      assert (a + b)[..|a + b| - 1] == a + b[..|b| - 1];
      StripEndJoin(a, b[..|b| - 1], p);
    }
  }

  lemma StripUnderscore(t: Text)
    ensures Strip([UNDERSCORE] + t, IsUnderscore) == Strip(t, IsUnderscore)
  {
    assert ([UNDERSCORE] + t)[1..] == t;
  }

  /** What an underscore and more becomes behind a word. */
  lemma {:induction false} StripEndBehind(t: Text)
    requires t != [] ==> !IsUnderscore(t[0])
    ensures StripEnd([UNDERSCORE] + t, IsUnderscore)
         == if StripEnd(t, IsUnderscore) == [] then [] else [UNDERSCORE] + StripEnd(t, IsUnderscore)
  {
    var all := [UNDERSCORE] + t;
    if t == [] {
      assert all[..|all| - 1] == [];
    } else if IsUnderscore(t[|t| - 1]) {
      assert all[..|all| - 1] == [UNDERSCORE] + t[..|t| - 1];
      StripEndBehind(t[..|t| - 1]);
    } else {
      assert all[|all| - 1] == t[|t| - 1];
    }
  }

  lemma {:induction false} RunsBehindWord(s: Text, n: nat)
    requires n <= |s| && forall k :: 0 <= k < n ==> !IsGap(s[k])
    ensures ReplaceRuns(s, IsGap, UNDERSCORE) == s[..n] + ReplaceRuns(s[n..], IsGap, UNDERSCORE)
  {
    if n > 0 {
      RunsBehindWord(s[1..], n - 1);
      assert s[1..][n - 1..] == s[n..] && s[..n] == [s[0]] + s[1..][..n - 1];
    } else {
      assert s[0..] == s && s[..0] == [];
    }
  }

  /** Runs of gaps replaced and the ends stripped: the words remain. */
  lemma {:induction false} StrippedIsWords(s: Text)
    ensures Strip(ReplaceRuns(s, IsGap, UNDERSCORE), IsUnderscore) == Words(s)
    decreases |s|
  {
    if s != [] && IsGap(s[0]) {
      StrippedIsWords(s[1..]);
      StripUnderscore(ReplaceRuns(s[1..], IsGap, UNDERSCORE));
    } else if s != [] {
      var n := WordLength(s);
      StrippedIsWords(s[n..]);
      RunsBehindWord(s, n);
      var rest := ReplaceRuns(s[n..], IsGap, UNDERSCORE);
      StripEndJoin(s[..n], rest, IsUnderscore);
      assert (s[..n] + rest)[0] == s[0];
      if n < |s| {
        GapThenWords(s[n..]);
      }
    }
  }

  lemma GapThenWords(s: Text)
    requires s != [] && IsGap(s[0])
    ensures var t := ReplaceRuns(s, IsGap, UNDERSCORE);
            var words := Strip(t, IsUnderscore);
            StripEnd(t, IsUnderscore) == if words == [] then [] else [UNDERSCORE] + words
  {
    var t := ReplaceRuns(s, IsGap, UNDERSCORE);
    RunsFirst(s, IsGap, UNDERSCORE);
    GapsAreUnderscores(s);
    var u := t[1..];
    assert t == [UNDERSCORE] + u;
    assert u != [] ==> !IsUnderscore(u[0]);
    StripEndBehind(u);
    StripUnderscore(u);
  }

  /** No two underscores are neighbours where gaps were replaced. */
  lemma GapsAreUnderscores(s: Text)
    ensures NoDouble(ReplaceRuns(s, IsGap, UNDERSCORE), IsUnderscore)
  {
    RunsNoDouble(s, IsGap, UNDERSCORE);
  }

  lemma {:induction false} RunsAtEnd(s: Text, c: CodeUnit, p: CodeUnit -> bool, r: CodeUnit)
    ensures ReplaceRuns(s + [c], p, r)
         == ReplaceRuns(s, p, r) + (if !p(c) then [c] else if s != [] && p(s[|s| - 1]) then [] else [r])
  {
    if s == [] {
      assert s + [c] == [c] && [c][1..] == [];
    } else {
      assert (s + [c])[1..] == s[1..] + [c];
      RunsAtEnd(s[1..], c, p, r);
    }
  }

  lemma {:induction false} StripEndThenRuns(s: Text)
    ensures ReplaceRuns(StripEnd(s, IsUnderscore), IsUnderscore, UNDERSCORE)
         == StripEnd(ReplaceRuns(s, IsUnderscore, UNDERSCORE), IsUnderscore)
  {
    if s != [] {
      var front, c := s[..|s| - 1], s[|s| - 1];
      assert s == front + [c];
      RunsAtEnd(front, c, IsUnderscore, UNDERSCORE);
      if IsUnderscore(c) {
        StripEndThenRuns(front);
        var t := ReplaceRuns(front, IsUnderscore, UNDERSCORE);
        assert t + [] == t && (t + [UNDERSCORE])[..|t|] == t;
      }
    }
  }

  /** Stripping underscores and collapsing them may change places. */
  lemma {:induction false} StripThenRuns(s: Text)
    ensures ReplaceRuns(Strip(s, IsUnderscore), IsUnderscore, UNDERSCORE)
         == Strip(ReplaceRuns(s, IsUnderscore, UNDERSCORE), IsUnderscore)
  {
    if s != [] && IsUnderscore(s[0]) {
      StripThenRuns(s[1..]);
      StripUnderscore(s[1..]);
      assert s == [UNDERSCORE] + s[1..];
      StripUnderscore(ReplaceRuns(s[1..], IsUnderscore, UNDERSCORE));
    } else {
      StripEndThenRuns(s);
      if s != [] {
        RunsFirst(s, IsUnderscore, UNDERSCORE);
      }
    }
  }

  /** A base as the stages leave it, with its underscores collapsed: its words, or "file". */
  lemma BaseIsWords(base: Text)
    ensures ReplaceRuns(SanitizeBase(ReplaceRuns(base, IsReplaced, UNDERSCORE)), IsUnderscore, UNDERSCORE)
         == OrFile(Words(base))
  {
    var x := ReplaceRuns(base, IsReplaced, UNDERSCORE);
    var dotless := ReplaceRuns(x, IsDot, UNDERSCORE);
    var either := c => IsDot(c) || IsUnderscore(c);
    RunsTwice(x, IsDot, IsUnderscore, either, UNDERSCORE);
    RunsTwice(base, IsReplaced, either, IsGap, UNDERSCORE);
    StripThenRuns(dotless);
    StrippedIsWords(base);
    RunsIdentity(FILE, IsUnderscore, UNDERSCORE);
    var stripped := Strip(dotless, IsUnderscore);
    if stripped != [] {
      RunsFirst(stripped, IsUnderscore, UNDERSCORE);
    }
  }

  /******* Letters *******/

  lemma {:induction false} LettersConcat(a: Text, b: Text)
    ensures Letters(a + b) == Letters(a) + Letters(b)
  {
    if b == [] {
      assert a + b == a;
    } else {
      LettersConcat(a, b[..|b| - 1]);
      assert (a + b)[..|a + b| - 1] == a + b[..|b| - 1];
    }
  }

  lemma LettersOfOne(c: CodeUnit)
    ensures Letters([c]) == if IsAlphanumeric(c) then [Lower(c)] else []
  {
    assert [c][..0] == [];
  }

  lemma {:induction false} KeptIsLetters(s: Text)
    ensures KeepAlphanumeric(s) == Letters(s)
  {
    if s != [] {
      var c, rest := s[0], s[1..];
      assert s == [c] + rest;
      KeptIsLetters(rest);
      LettersOfOne(c);
      LettersConcat([c], rest);
    }
  }

  lemma {:induction false} DotsAreNoLetters(s: Text)
    ensures KeepAlphanumeric(RemoveDots(s)) == KeepAlphanumeric(s)
  {
    if s != [] {
      DotsAreNoLetters(s[1..]);
      var t := RemoveDots(s[1..]);
      assert ([s[0]] + t)[1..] == t && [] + t == t;
    }
  }

  lemma {:induction false} ReplacedAreNoLetters(s: Text)
    ensures KeepAlphanumeric(ReplaceRuns(s, IsReplaced, UNDERSCORE)) == KeepAlphanumeric(s)
  {
    if s != [] {
      ReplacedAreNoLetters(s[1..]);
      ClassesApart(s[0]);
      var t := ReplaceRuns(s[1..], IsReplaced, UNDERSCORE);
      assert ([s[0]] + t)[1..] == t && ([UNDERSCORE] + t)[1..] == t;
    }
  }

  lemma ExtensionIsLetters(ext: Text)
    ensures SanitizeExtension(ReplaceRuns(ext, IsReplaced, UNDERSCORE)) == Letters(ext)
  {
    var t := ReplaceRuns(ext, IsReplaced, UNDERSCORE);
    DotsAreNoLetters(t);
    ReplacedAreNoLetters(ext);
    KeptIsLetters(ext);
  }

  /******* The whole name *******/

  lemma ReplacedKeepsDotless(s: Text)
    requires NoDot(s)
    ensures NoDot(ReplaceRuns(s, IsReplaced, UNDERSCORE))
  {
    var t := ReplaceRuns(s, IsReplaced, UNDERSCORE);
    RunsMadeFrom(s, IsReplaced, UNDERSCORE);
    forall k | 0 <= k < |t|
      ensures t[k] != DOT
    {
      assert t[k] in t;
    }
  }

  lemma {:induction false} NoDotBehindLast(s: Text, k: nat)
    requires LastDot(s) < k < |s|
    ensures s[k] != DOT
  {
    if s[|s| - 1] != DOT && k < |s| - 1 {
      NoDotBehindLast(s[..|s| - 1], k);
    }
  }

  lemma TailHasNoDot(s: Text)
    ensures NoDot(s[LastDot(s) + 1..])
  {
    forall k: nat | LastDot(s) < k < |s|
      ensures s[k] != DOT
    {
      NoDotBehindLast(s, k);
    }
  }

  lemma LastDotKept(name: Text, k: nat)
    requires LastDot(name) == k
    ensures var t, a := ReplaceRuns(name, IsReplaced, UNDERSCORE), ReplaceRuns(name[..k], IsReplaced, UNDERSCORE);
            && LastDot(t) == |a| && |a| < |t| && t[..|a|] == a
            && t[|a| + 1..] == ReplaceRuns(name[k + 1..], IsReplaced, UNDERSCORE)
  {
    TailHasNoDot(name);
    assert name == name[..k] + [DOT] + name[k + 1..];
    RunsAcross(name[..k], DOT, name[k + 1..], IsReplaced, UNDERSCORE);
    ReplacedKeepsDotless(name[k + 1..]);
    LastDotOf(ReplaceRuns(name[..k], IsReplaced, UNDERSCORE), ReplaceRuns(name[k + 1..], IsReplaced, UNDERSCORE));
  }

  lemma ShortIsKept(s: Text, p: CodeUnit -> bool, r: CodeUnit)
    requires |s| <= MAX_LENGTH
    ensures LimitLength(ReplaceRuns(s, p, r)) == ReplaceRuns(s, p, r)
  {
    RunsMadeFrom(s, p, r);
  }

  lemma WordsAreNoLonger(s: Text)
    ensures |Words(s)| <= |s|
  {
    StrippedIsWords(s);
    RunsMadeFrom(s, IsGap, UNDERSCORE);
    var lo := StripFacts(ReplaceRuns(s, IsGap, UNDERSCORE), IsUnderscore);
  }

  lemma PartsAtLastDot(name: Text, k: nat)
    requires 0 < k == LastDot(name)
    ensures CleanParts(ReplaceRuns(name, IsReplaced, UNDERSCORE))
         == Recombine(SanitizeBase(ReplaceRuns(name[..k], IsReplaced, UNDERSCORE)),
                      SanitizeExtension(ReplaceRuns(name[k + 1..], IsReplaced, UNDERSCORE)))
  {
    LastDotKept(name, k);
    RunsFirst(name[..k], IsReplaced, UNDERSCORE);
  }

  lemma OnlyBase(name: Text)
    requires LastDot(name) <= 0
    ensures CleanParts(ReplaceRuns(name, IsReplaced, UNDERSCORE))
         == Recombine(SanitizeBase(ReplaceRuns(name, IsReplaced, UNDERSCORE)), SanitizeExtension([]))
  {
    if LastDot(name) == 0 {
      LastDotKept(name, 0);
      assert name[..0] == [];
    } else {
      TailHasNoDot(name);
      assert name[0..] == name;
      ReplacedKeepsDotless(name);
      NoLastDot(ReplaceRuns(name, IsReplaced, UNDERSCORE));
    }
  }

  /** `sanitizeFilename` on a name that normalization leaves with at most 200 units is the one pass. */
  lemma SanitizeIsOnePass(name: Text, nfkc: Text -> Text)
    requires |nfkc(name)| <= MAX_LENGTH
    ensures Sanitize(name, nfkc) == OnePass(nfkc(name))
  {
    var v := nfkc(name);
    PrepareAtOnce(v);
    ShortIsKept(v, IsReplaced, UNDERSCORE);
    var k := LastDot(v);
    if k > 0 {
      PartsAtLastDot(v, k);
      TwoParts(v[..k], v[k + 1..]);
    } else {
      OnlyBase(v);
      TwoParts(v, []);
      WordsAreNoLonger(v);
    }
  }

  lemma PlainRuns(s: Text)
    ensures AllPlain(ReplaceRuns(s, IsReplaced, UNDERSCORE))
  {
    var t := ReplaceRuns(s, IsReplaced, UNDERSCORE);
    RunsMadeFrom(s, IsReplaced, UNDERSCORE);
    forall k | 0 <= k < |t|
      ensures IsPlain(t[k])
    {
      assert t[k] in t;
      ClassesApart(t[k]);
    }
  }

  /** The two parts, sanitized, put together and cleaned up. */
  lemma TwoParts(base: Text, ext: Text)
    ensures var a := SanitizeBase(ReplaceRuns(base, IsReplaced, UNDERSCORE));
            var b := SanitizeExtension(ReplaceRuns(ext, IsReplaced, UNDERSCORE));
            FinalCleanup(Recombine(a, b)) == LimitLength(Recombine(OrFile(Words(base)), Letters(ext)))
  {
    var x := ReplaceRuns(base, IsReplaced, UNDERSCORE);
    PlainRuns(base);
    BaseFacts(x);
    BaseIsWords(base);
    ExtensionIsLetters(ext);
    ExtensionFacts(ReplaceRuns(ext, IsReplaced, UNDERSCORE));
    FinalIs(SanitizeBase(x), Letters(ext));
  }

  /** A longer one is cut at 200 units once its runs have been replaced, and then it is the one pass too. */
  lemma LongNameIsCut(name: Text, nfkc: Text -> Text)
    requires |nfkc(name)| > MAX_LENGTH
    ensures var runs := ReplaceRuns(nfkc(name), IsReplaced, UNDERSCORE);
            Sanitize(name, nfkc) == OnePass(if |runs| <= 200 then runs else runs[..200])
  {
    var p := Prepare(nfkc(name));
    PrepareAtOnce(nfkc(name));
    PrepareFacts(nfkc(name));
    PrepareIdentity(p);
    SanitizeIsOnePass(p, x => x);
  }
}

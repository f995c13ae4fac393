/**
 Tool names of the form `alias__tool`: the recognisers of src/lib/tool-call-utils.ts:90-114 and
 src/lib/utils.ts:182-216, and the parser that splits and joins (src/context/MCPServerContext.tsx:216-220).
 */
module ToolNames {
  import opened Wrappers

  const DELIMITER := "__"

  datatype ToolName = ToolName(alias: string, tool: string)

  predicate DelimiterAt(s: string, i: nat) {
    i + 1 < |s| && s[i] == '_' && s[i + 1] == '_'
  }

  predicate EndsInUnderscore(s: string) {
    s != "" && s[|s| - 1] == '_'
  }

  /** `s.indexOf('__')` */
  function IndexOfDelimiter(s: string): (k: int)
    ensures -1 <= k < |s|
    ensures k >= 0 ==> DelimiterAt(s, k)
  {
    if |s| < 2 then -1
    else if DelimiterAt(s, 0) then 0
    else if IndexOfDelimiter(s[1..]) == -1 then -1
    else IndexOfDelimiter(s[1..]) + 1
  }

  /** `isBuiltinTool` */
  predicate IsBuiltinTool(name: string, builtin: set<string>) {
    var k := IndexOfDelimiter(name);
    0 < k && k + 2 < |name| && name[..k] in builtin
  }

  /** `parseBuiltinToolName` */
  function ParseBuiltinToolName(name: string, builtin: set<string>): Option<ToolName> {
    var k := IndexOfDelimiter(name);
    if k == -1 then None
    else if name[..k] !in builtin || name[k + 2..] == "" then None
    else Some(ToolName(name[..k], name[k + 2..]))
  }

  /** `extractBuiltInServiceAlias` */
  function ExtractServiceAlias(name: string, builtin: set<string>): Option<string> {
    var k := IndexOfDelimiter(name);
    if k <= 0 || k + 2 >= |name| then None
    else if name[..k] in builtin then Some(name[..k])
    else None
  }

  predicate IsWordChar(c: char) {
    'a' <= c <= 'z' || 'A' <= c <= 'Z' || '0' <= c <= '9'
  }

  /** `[a-z0-9]*(_[a-z0-9]+)*$`, ignoring case. */
  predicate MatchesRest(s: string) {
    || s == ""
    || (IsWordChar(s[0]) && MatchesRest(s[1..]))
    || (s[0] == '_' && |s| > 1 && IsWordChar(s[1]) && MatchesRest(s[2..]))
  }

  /** `isValidServiceAlias`: what it rejects before matching, the pattern rejects too. */
  predicate IsValidServiceAlias(alias: string) {
    alias != "" && IsWordChar(alias[0]) && MatchesRest(alias[1..])
  }

  /******* Round trip *******/

  lemma {:induction false} NothingBeforeIndex(s: string, i: nat)
    requires DelimiterAt(s, i)
    ensures 0 <= IndexOfDelimiter(s) <= i
  {
    if !DelimiterAt(s, 0) {
      NothingBeforeIndex(s[1..], i - 1);
    }
  }

  /** The first delimiter of `alias__rest` is the one put there just when the alias has none and ends in no `_`. */
  lemma IndexExactlyWhen(alias: string, rest: string)
    ensures IndexOfDelimiter(alias + DELIMITER + rest) == |alias|
       <==> IndexOfDelimiter(alias) == -1 && !EndsInUnderscore(alias)
  {
    var s := alias + DELIMITER + rest;
    assert DelimiterAt(s, |alias|);
    NothingBeforeIndex(s, |alias|);
    if IndexOfDelimiter(alias) != -1 {
      assert DelimiterAt(s, IndexOfDelimiter(alias));
      NothingBeforeIndex(s, IndexOfDelimiter(alias));
    } else if EndsInUnderscore(alias) {
      assert DelimiterAt(s, |alias| - 1);
      NothingBeforeIndex(s, |alias| - 1);
    } else if IndexOfDelimiter(s) < |alias| {
      NothingBeforeIndex(alias, IndexOfDelimiter(s));
    }
  }

  lemma {:induction false} MatchHasNoDelimiter(s: string)
    requires MatchesRest(s)
    ensures IndexOfDelimiter(s) == -1 && !EndsInUnderscore(s)
  {
    if s == "" {
    } else if IsWordChar(s[0]) {
      MatchHasNoDelimiter(s[1..]);
    } else {
      MatchHasNoDelimiter(s[2..]);
      assert s[1..][1..] == s[2..];
      assert !DelimiterAt(s[1..], 0);
    }
  }

  /** Letters, digits and underscores, of which the underscores stand one by one and not at the end. */
  predicate Spaced(s: string) {
    && (forall k :: 0 <= k < |s| ==> 'a' <= s[k] <= 'z' || 'A' <= s[k] <= 'Z' || '0' <= s[k] <= '9' || s[k] == '_')
    && (forall k :: 0 < k < |s| ==> s[k - 1] != '_' || s[k] != '_')
    && (s != "" ==> s[|s| - 1] != '_')
  }

  lemma SpacedUnfolds(s: string)
    requires s != ""
    ensures Spaced(s) <==> Spaced(s[1..]) && (IsWordChar(s[0]) || (s[0] == '_' && |s| > 1 && s[1] != '_'))
  {
    var rest := s[1..];
    if Spaced(rest) && (IsWordChar(s[0]) || (s[0] == '_' && |s| > 1 && s[1] != '_')) {
      forall k | 0 < k < |s|
        ensures s[k - 1] != '_' || s[k] != '_'
      {
        assert s[k] == rest[k - 1];
        assert k > 1 ==> s[k - 1] == rest[k - 2];
      }
    }
    assert forall k :: 0 <= k < |rest| ==> rest[k] == s[k + 1];
  }

  lemma {:induction false} RestExactlyWhen(s: string)
    ensures MatchesRest(s) <==> Spaced(s)
  {
    if s != "" {
      SpacedUnfolds(s);
      if IsWordChar(s[0]) {
        RestExactlyWhen(s[1..]);
      } else if |s| > 1 {
        SpacedUnfolds(s[1..]);
        assert s[1..][1..] == s[2..];
        RestExactlyWhen(s[2..]);
      }
    }
  }

  /** The alias pattern, said of the characters: no underscore at either end, and no two together. */
  lemma ValidExactlyWhen(alias: string)
    ensures IsValidServiceAlias(alias) <==> alias != "" && alias[0] != '_' && Spaced(alias)
  {
    RestExactlyWhen(alias);
  }

  /** A registered valid alias and a tool name come back as they were put together, whatever the tool is called. */
  lemma RoundTrip(alias: string, tool: string, builtin: set<string>)
    requires IsValidServiceAlias(alias) && tool != "" && alias in builtin
    ensures ParseBuiltinToolName(alias + DELIMITER + tool, builtin) == Some(ToolName(alias, tool))
  {
    MatchHasNoDelimiter(alias);
    IndexExactlyWhen(alias, tool);
    var name := alias + DELIMITER + tool;
    assert name[..|alias|] == alias && name[|alias| + 2..] == tool;
  }

  /** Whatever the parser accepts is the name that its parts make. */
  lemma ParsedIsWhole(name: string, builtin: set<string>)
    requires ParseBuiltinToolName(name, builtin).Some?
    ensures var parsed := ParseBuiltinToolName(name, builtin).value;
            parsed.alias + DELIMITER + parsed.tool == name && parsed.alias in builtin && parsed.tool != ""
  {
    var k := IndexOfDelimiter(name);
    assert name == name[..k] + name[k..k + 2] + name[k + 2..];
  }

  /** The recognisers agree on every name just when the empty string is no service. */
  lemma RecognisersAgreeExactlyWhen(builtin: set<string>)
    ensures (forall name: string ::
               && (IsBuiltinTool(name, builtin) <==> ParseBuiltinToolName(name, builtin).Some?)
               && (ParseBuiltinToolName(name, builtin).Some? <==> ExtractServiceAlias(name, builtin).Some?))
       <==> "" !in builtin
  {
    if "" in builtin {
      var bare := "__tool";
      assert DelimiterAt(bare, 0) && bare[..0] == "";
      assert !IsBuiltinTool(bare, builtin) && ParseBuiltinToolName(bare, builtin).Some?;
    } else {
      forall name: string
        ensures IsBuiltinTool(name, builtin) <==> ParseBuiltinToolName(name, builtin).Some?
        ensures ParseBuiltinToolName(name, builtin).Some? <==> ExtractServiceAlias(name, builtin).Some?
      {
        assert IndexOfDelimiter(name) == 0 ==> name[..0] == "";
      }
    }
  }

  /******* Splitting and joining *******/

  /** `s.split('__')` */
  function Split(s: string): (parts: seq<string>)
    ensures |parts| >= 1
    decreases |s|
  {
    var k := IndexOfDelimiter(s);
    if k == -1 then [s] else [s[..k]] + Split(s[k + 2..])
  }

  /** `parts.join('__')` */
  function Join(parts: seq<string>): string
    requires parts != []
  {
    if |parts| == 1 then parts[0] else parts[0] + DELIMITER + Join(parts[1..])
  }

  lemma {:induction false} JoinSplit(s: string)
    ensures Join(Split(s)) == s
    decreases |s|
  {
    var k := IndexOfDelimiter(s);
    if k != -1 {
      JoinSplit(s[k + 2..]);
      assert Split(s)[1..] == Split(s[k + 2..]);
      assert s == s[..k] + s[k..k + 2] + s[k + 2..];
    }
  }

  /** Lines 216-220 of MCPServerContext.tsx: the alias, if any, and the tool name. */
  function SplitToolName(name: string): (Option<string>, string) {
    var parts := Split(name);
    if |parts| > 1 then (Some(parts[0]), Join(parts[1..])) else (None, name)
  }

  /** It cuts at the first delimiter, as the builtin parsers do, however many there are. */
  lemma SplitCutsAtFirst(name: string)
    ensures var k := IndexOfDelimiter(name);
            SplitToolName(name) == if k == -1 then (None, name) else (Some(name[..k]), name[k + 2..])
  {
    var k := IndexOfDelimiter(name);
    if k != -1 {
      JoinSplit(name[k + 2..]);
      assert Split(name)[1..] == Split(name[k + 2..]);
    }
  }
}

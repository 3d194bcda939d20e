// The approval allowlist of agent/src/policy.py: scopes granted for the rest of the task.
// fnmatch is not modelled; it is the parameter `glob` (text, pattern).
module Scopes {
  import opened Wrappers

  datatype Scope =
    | AllSession
    | ToolType(tool: string)
    | ToolGroup(group: string)
    | RuleScope(rule: string)
    | BashPattern(bash: string)
    | WritePath(path: string)

  // What the allowlist looks at in a tool call; a missing input reads as the empty string.
  datatype Call = Call(tool: string, command: string, filePath: string)

  type Glob = (string, string) -> bool

  const TOOL_GROUPS: map<string, set<string>> := map["file_write" := {"Write", "Edit"}]

  // ---------------------------------------------------------------- reading a scope

  // str.isspace
  predicate IsSpace(c: char) {
    || '\t' <= c <= '\r' || '\U{1C}' <= c <= ' ' || c == '\U{85}' || c == '\U{A0}' || c == '\U{1680}'
    || '\U{2000}' <= c <= '\U{200A}' || '\U{2028}' <= c <= '\U{2029}' || c == '\U{202F}' || c == '\U{205F}'
    || c == '\U{3000}'
  }

  function LStrip(s: string): string {
    if s != "" && IsSpace(s[0]) then LStrip(s[1..]) else s
  }

  function RStrip(s: string): string {
    if s != "" && IsSpace(s[|s| - 1]) then RStrip(s[..|s| - 1]) else s
  }

  function Strip(s: string): string {
    RStrip(LStrip(s))
  }

  // Text before and after the first colon; None when there is no colon.
  function Partition(s: string): Option<(string, string)> {
    if s == "" then None
    else if s[0] == ':' then Some(("", s[1..]))
    else match Partition(s[1..])
      case None => None
      case Some((before, after)) => Some(([s[0]] + before, after))
  }

  function ScopeOf(prefix: string, value: string): Option<Scope> {
    if value == "" then None
    else if prefix == "tool_type" then Some(ToolType(value))
    else if prefix == "tool_group" then (if value in TOOL_GROUPS then Some(ToolGroup(value)) else None)
    else if prefix == "rule" then Some(RuleScope(value))
    else if prefix == "bash_pattern" then Some(BashPattern(value))
    else if prefix == "write_path" then Some(WritePath(value))
    else None
  }

  // None stands for the ValueError.
  function Parse(scope: string): Option<Scope> {
    var normalized := Strip(scope);
    if normalized == "all_session" then Some(AllSession)
    else match Partition(normalized)
      case None => None
      case Some((prefix, value)) => ScopeOf(prefix, Strip(value))
  }

  function Prefix(s: Scope): string
    requires !s.AllSession?
  {
    match s
    case ToolType(_) => "tool_type"
    case ToolGroup(_) => "tool_group"
    case RuleScope(_) => "rule"
    case BashPattern(_) => "bash_pattern"
    case WritePath(_) => "write_path"
  }

  function Value(s: Scope): string
    requires !s.AllSession?
  {
    match s
    case ToolType(v) => v
    case ToolGroup(v) => v
    case RuleScope(v) => v
    case BashPattern(v) => v
    case WritePath(v) => v
  }

  function Show(s: Scope): string {
    if s.AllSession? then "all_session" else Prefix(s) + ":" + Value(s)
  }

  // The scopes that can be granted at all.
  predicate Grantable(s: Scope) {
    s.AllSession? || (Value(s) != "" && Strip(Value(s)) == Value(s) && (s.ToolGroup? ==> s.group in TOOL_GROUPS))
  }

  predicate Spaces(s: string) {
    forall c :: c in s ==> IsSpace(c)
  }

  lemma {:induction false} LStripSkips(pad: string, s: string)
    requires Spaces(pad)
    ensures LStrip(pad + s) == LStrip(s)
  {
    if pad == "" {
      assert pad + s == s;
    } else {
      assert (pad + s)[1..] == pad[1..] + s && pad[0] in pad;
      LStripSkips(pad[1..], s);
    }
  }

  lemma {:induction false} RStripSkips(s: string, pad: string)
    requires Spaces(pad)
    ensures RStrip(s + pad) == RStrip(s)
  {
    if pad == "" {
      assert s + pad == s;
    } else {
      var n := |pad| - 1;
      assert (s + pad)[..|s + pad| - 1] == s + pad[..n] && pad[n] in pad;
      RStripSkips(s, pad[..n]);
    }
  }

  lemma {:induction false} LStripShape(s: string)
    ensures var t := LStrip(s);
            (t == "" || !IsSpace(t[0])) && |t| <= |s| && t == s[|s| - |t|..] && Spaces(s[..|s| - |t|])
  {
    if s != "" && IsSpace(s[0]) {
      LStripShape(s[1..]);
      var k := |s| - |LStrip(s)|;
      assert s[..k] == [s[0]] + s[1..][..k - 1];
    }
  }

  lemma {:induction false} RStripShape(s: string)
    ensures var t := RStrip(s); (t == "" || !IsSpace(t[|t| - 1])) && |t| <= |s| && t == s[..|t|] && Spaces(s[|t|..])
  {
    hide IsSpace;
    if s != "" && IsSpace(s[|s| - 1]) {
      var init := s[..|s| - 1];
      RStripShape(init);
      var k := |RStrip(s)|;
      assert s[k..] == init[k..] + [s[|s| - 1]];
      assert init[..k] == s[..k];
    } else {
      assert s[..|s|] == s;
    }
  }

  // Surrounding white space never matters.
  lemma {:induction false} StripIgnoresPadding(left: string, s: string, right: string)
    requires Spaces(left) && Spaces(right)
    ensures Strip(left + s + right) == Strip(s)
  {
    assert left + s + right == left + (s + right);
    LStripSkips(left, s + right);
    LStripShape(s);
    if LStrip(s) == "" {
      assert s[..|s|] == s;
      assert s + right + "" == s + right;
      LStripSkips(s + right, "");
    } else {
      var k := |s| - |LStrip(s)|;
      assert s + right == s[..k] + (LStrip(s) + right);
      LStripSkips(s[..k], LStrip(s) + right);
      RStripSkips(LStrip(s), right);
    }
  }

  lemma {:induction false} PartitionFinds(prefix: string, value: string)
    requires ':' !in prefix
    ensures Partition(prefix + ":" + value) == Some((prefix, value))
  {
    if prefix == "" {
      assert prefix + ":" + value == ":" + value;
    } else {
      assert (prefix + ":" + value)[1..] == prefix[1..] + ":" + value;
      PartitionFinds(prefix[1..], value);
      assert [prefix[0]] + prefix[1..] == prefix;
    }
  }

  // A grantable scope is read back from what it prints, with any white space around the whole
  // and around its value.
  lemma {:induction false} ParseShow(s: Scope, left: string, mid: string, right: string)
    requires Grantable(s) && Spaces(left) && Spaces(mid) && Spaces(right)
    ensures s.AllSession? ==> Parse(left + Show(s) + right) == Some(s)
    ensures !s.AllSession? ==> Parse(left + Prefix(s) + ":" + mid + Value(s) + right) == Some(s)
  {
    hide IsSpace, LStrip, RStrip, Partition, Prefix;
    ShownFacts(s);
    if s.AllSession? {
      StripIgnoresPadding(left, Show(s), right);
      TightStrips(Show(s));
    } else {
      var text := Prefix(s) + ":" + (mid + Value(s));
      assert left + text + right == left + Prefix(s) + ":" + mid + Value(s) + right;
      StripIgnoresPadding(left, text, right);
      TightValue(Value(s));
      TightStrips(text);
      assert "all_session"[1] == 'l' && text[1] == Prefix(s)[1];
      PartitionFinds(Prefix(s), mid + Value(s));
      StripIgnoresPadding(mid, Value(s), "");
      assert mid + Value(s) + "" == mid + Value(s);
    }
  }

  // White space between the prefix and the colon, however, makes the scope unreadable.
  lemma {:induction false} PaddedPrefix(s: Scope, pad: string)
    requires Grantable(s) && !s.AllSession? && Spaces(pad)
    ensures Parse(Prefix(s) + pad + ":" + Value(s)) == if pad == "" then Some(s) else None
  {
    hide IsSpace, LStrip, RStrip, Partition, Prefix, ScopeOf;
    ShownFacts(s);
    var text := Prefix(s) + pad + ":" + Value(s);
    if pad == "" {
      ParseShow(s, "", "", "");
      assert "" + Prefix(s) + ":" + "" + Value(s) + "" == text;
    } else {
      TightValue(Value(s));
      TightStrips(text);
      assert "all_session"[1] == 'l' && text[1] == Prefix(s)[1];
      SpacesHaveNoColon(pad);
      PartitionFinds(Prefix(s) + pad, Value(s));
      assert (Prefix(s) + pad)[|Prefix(s) + pad| - 1] == pad[|pad| - 1] && pad[|pad| - 1] in pad;
      NoScopeEndsInSpace(Prefix(s) + pad, Value(s));
    }
  }

  lemma {:induction false} SpacesHaveNoColon(pad: string)
    requires Spaces(pad)
    ensures ':' !in pad
  {
  }

  lemma {:induction false} NoScopeEndsInSpace(prefix: string, value: string)
    requires prefix != "" && IsSpace(prefix[|prefix| - 1])
    ensures ScopeOf(prefix, value) == None
  {
  }

  lemma {:induction false} ShownFacts(s: Scope)
    ensures !IsSpace("all_session"[0]) && !IsSpace("all_session"[10])
    ensures !s.AllSession? ==>
              && |Prefix(s)| > 1 && !IsSpace(Prefix(s)[0]) && Prefix(s)[1] != 'l' && ':' !in Prefix(s)
              && (Grantable(s) ==> ScopeOf(Prefix(s), Value(s)) == Some(s))
  {
  }

  lemma {:induction false} TightStrips(s: string)
    requires s != "" && !IsSpace(s[0]) && !IsSpace(s[|s| - 1])
    ensures Strip(s) == s
  {
  }

  lemma {:induction false} TightValue(s: string)
    requires s != "" && Strip(s) == s
    ensures !IsSpace(s[|s| - 1])
  {
    RStripShape(LStrip(s));
  }

  // The prefixes and the scopes they stand for.
  lemma {:induction false} ParseReads(value: string)
    requires value != "" && Strip(value) == value
    ensures Parse("all_session") == Some(AllSession)
    ensures Parse("tool_type:" + value) == Some(ToolType(value))
    ensures Parse("tool_group:" + value) == if value == "file_write" then Some(ToolGroup(value)) else None
    ensures Parse("rule:" + value) == Some(RuleScope(value))
    ensures Parse("bash_pattern:" + value) == Some(BashPattern(value))
    ensures Parse("write_path:" + value) == Some(WritePath(value))
  {
    hide IsSpace, Partition, Strip, Parse;
    PrefixesAreTight();
    assert "tool_type" + ":" == "tool_type:";
    ParsePlain("tool_type", value);
    assert "tool_group" + ":" == "tool_group:";
    ParsePlain("tool_group", value);
    assert "rule" + ":" == "rule:";
    ParsePlain("rule", value);
    assert "bash_pattern" + ":" == "bash_pattern:";
    ParsePlain("bash_pattern", value);
    assert "write_path" + ":" == "write_path:";
    ParsePlain("write_path", value);
    ParseAllSession();
  }

  lemma {:induction false} PrefixesAreTight()
    ensures !IsSpace('t') && !IsSpace('r') && !IsSpace('b') && !IsSpace('w')
  {
  }

  lemma {:induction false} ParseAllSession()
    ensures Parse("all_session") == Some(AllSession)
  {
    TightStrips("all_session");
  }

  lemma {:induction false} ParsePlain(prefix: string, value: string)
    requires prefix != "" && ':' !in prefix && !IsSpace(prefix[0]) && (|prefix| < 2 || prefix[1] != 'l')
    requires value != "" && Strip(value) == value
    ensures Parse(prefix + ":" + value) == ScopeOf(prefix, value)
  {
    hide IsSpace, LStrip, RStrip, Partition, ScopeOf;
    var text := prefix + ":" + value;
    TightValue(value);
    TightStrips(text);
    PartitionFinds(prefix, value);
    assert "all_session"[1] == 'l' && text[1] == if |prefix| < 2 then ':' else prefix[1];
  }

  lemma {:induction false} ThisCallIsNoScope()
    ensures Parse("this_call").None? && Parse("").None?
  {
    TightStrips("this_call");
    NoColon("this_call");
  }

  lemma {:induction false} NoColon(s: string)
    requires ':' !in s
    ensures Partition(s).None?
  {
    if s != "" {
      NoColon(s[1..]);
    }
  }

  // Whatever is read is grantable.
  lemma {:induction false} ParseGrants(scope: string)
    ensures Parse(scope).Some? ==> Grantable(Parse(scope).value)
  {
    if Partition(Strip(scope)).Some? {
      StripTwice(Partition(Strip(scope)).value.1);
    }
  }

  lemma {:induction false} StripTwice(s: string)
    ensures Strip(Strip(s)) == Strip(s)
  {
    LStripShape(s);
    RStripShape(LStrip(s));
  }

  // ---------------------------------------------------------------- the allowlist

  // Rule scopes pre-approve no call by themselves; the engine checks them after Cedar's answer.
  predicate Covers(s: Scope, call: Call, glob: Glob) {
    match s
    case AllSession => true
    case ToolType(t) => call.tool == t
    case ToolGroup(g) => g in TOOL_GROUPS && call.tool in TOOL_GROUPS[g]
    case RuleScope(_) => false
    case BashPattern(p) => call.tool == "Bash" && glob(call.command, p)
    case WritePath(p) => call.tool in {"Write", "Edit"} && glob(call.filePath, p)
  }

  class ApprovalAllowlist {
    var allSession: bool
    var toolTypes: set<string>
    var toolGroups: set<string>
    var ruleIds: set<string>
    var bashPatterns: seq<string>
    var writePathPatterns: seq<string>

    ghost predicate Valid() reads this {
      toolGroups <= TOOL_GROUPS.Keys
    }

    // The scopes granted so far.
    ghost predicate Granted(s: Scope) reads this {
      match s
      case AllSession => allSession
      case ToolType(t) => t in toolTypes
      case ToolGroup(g) => g in toolGroups
      case RuleScope(r) => r in ruleIds
      case BashPattern(p) => p in bashPatterns
      case WritePath(p) => p in writePathPatterns
    }

    ghost function AllGranted(): iset<Scope> reads this {
      iset s | Granted(s)
    }

    constructor ()
      ensures Valid() && forall s :: !Granted(s)
    {
      allSession, toolTypes, toolGroups, ruleIds, bashPatterns, writePathPatterns := false, {}, {}, {}, [], [];
    }

    // A scope that can be read is added to what was granted; anything else changes nothing.
    method Add(scope: string) returns (ok: bool)
      requires Valid()
      modifies this
      ensures Valid() && ok == Parse(scope).Some?
      ensures forall s :: Granted(s) <==> old(Granted(s)) || Some(s) == Parse(scope)
    {
      hide Strip, Partition;
      var normalized := Strip(scope);
      if normalized == "all_session" {
        allSession := true;
        return true;
      }
      var parts := Partition(normalized);
      if parts.None? { return false; }
      var prefix, value := parts.value.0, Strip(parts.value.1);
      if value == "" { return false; }
      if prefix == "tool_type" {
        toolTypes := toolTypes + {value};
      } else if prefix == "tool_group" {
        if value !in TOOL_GROUPS { return false; }
        toolGroups := toolGroups + {value};
      } else if prefix == "rule" {
        ruleIds := ruleIds + {value};
      } else if prefix == "bash_pattern" {
        bashPatterns := bashPatterns + [value];
      } else if prefix == "write_path" {
        writePathPatterns := writePathPatterns + [value];
      } else {
        return false;
      }
      ok := true;
    }

    // What it takes for a granted scope to cover a call; rule scopes cover none.
    lemma {:induction false} MatchesPlainly(call: Call, glob: Glob)
      requires Valid()
      ensures (exists s :: Granted(s) && Covers(s, call, glob)) <==>
              || Granted(AllSession) || Granted(ToolType(call.tool))
              || (Granted(ToolGroup("file_write")) && call.tool in {"Write", "Edit"})
              || (call.tool == "Bash" && exists p :: Granted(BashPattern(p)) && glob(call.command, p))
              || (call.tool in {"Write", "Edit"} && exists p :: Granted(WritePath(p)) && glob(call.filePath, p))
    {
      if s :| Granted(s) && Covers(s, call, glob) {
        match s {
          case BashPattern(p) => assert Granted(BashPattern(p));
          case WritePath(p) => assert Granted(WritePath(p));
          case _ =>
        }
      }
      if Granted(AllSession) { assert Covers(AllSession, call, glob); }
      if Granted(ToolType(call.tool)) { assert Covers(ToolType(call.tool), call, glob); }
      if Granted(ToolGroup("file_write")) && call.tool in {"Write", "Edit"} {
        assert Covers(ToolGroup("file_write"), call, glob);
      }
      if p :| Granted(BashPattern(p)) && glob(call.command, p) && call.tool == "Bash" {
        assert Covers(BashPattern(p), call, glob);
      }
      if p :| Granted(WritePath(p)) && glob(call.filePath, p) && call.tool in {"Write", "Edit"} {
        assert Covers(WritePath(p), call, glob);
      }
    }

    // A call is pre-approved exactly when some granted scope covers it.
    method Matches(call: Call, glob: Glob) returns (hit: bool)
      requires Valid()
      ensures hit <==> exists s :: Granted(s) && Covers(s, call, glob)
      ensures hit <==>
              || Granted(AllSession) || Granted(ToolType(call.tool))
              || (Granted(ToolGroup("file_write")) && call.tool in {"Write", "Edit"})
              || (call.tool == "Bash" && exists p :: Granted(BashPattern(p)) && glob(call.command, p))
              || (call.tool in {"Write", "Edit"} && exists p :: Granted(WritePath(p)) && glob(call.filePath, p))
    {
      MatchesPlainly(call, glob);
      if allSession { assert Granted(AllSession); return true; }
      if call.tool in toolTypes { assert Granted(ToolType(call.tool)); return true; }
      var groups := toolGroups;
      while groups != {}
        invariant groups <= toolGroups
        invariant forall g :: g in toolGroups - groups ==> call.tool !in TOOL_GROUPS[g]
        decreases groups
      {
        var g :| g in groups;
        if call.tool in TOOL_GROUPS[g] { assert Granted(ToolGroup(g)); return true; }
        groups := groups - {g};
      }
      if call.tool == "Bash" {
        for i := 0 to |bashPatterns|
          invariant forall p :: p in bashPatterns[..i] ==> !glob(call.command, p)
        {
          if glob(call.command, bashPatterns[i]) { assert Granted(BashPattern(bashPatterns[i])); return true; }
        }
        assert bashPatterns[..|bashPatterns|] == bashPatterns;
      }
      if call.tool == "Write" || call.tool == "Edit" {
        for i := 0 to |writePathPatterns|
          invariant forall p :: p in writePathPatterns[..i] ==> !glob(call.filePath, p)
        {
          if glob(call.filePath, writePathPatterns[i]) { assert Granted(WritePath(writePathPatterns[i])); return true; }
        }
        assert writePathPatterns[..|writePathPatterns|] == writePathPatterns;
      }
      return false;
    }
  }
}

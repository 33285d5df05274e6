/** LIKE patterns compiled to regular expressions (crates/rspark-core/src/expr.rs:464-507).
    The regular-expression engine is foreign; this module gives the meaning of the subset of its
    syntax that the compiler emits. */
module Like {
  import opened Results

  // ----- the compiler -----

  /** The characters `regex::escape` puts a backslash before. */
  predicate IsMeta(c: char) {
    c in {'\\', '.', '+', '*', '?', '(', ')', '|', '[', ']', '{', '}', '^', '$', '#', '&', '-', '~'}
  }

  /** What the engine accepts after a backslash as the character itself: any ASCII character but
      letters, digits and angle brackets. */
  predicate IsEscapable(c: char) {
    c < '\U{80}' && !('0' <= c <= '9') && !('A' <= c <= 'Z') && !('a' <= c <= 'z') && c != '<' && c != '>'
  }

  function EscapeChar(c: char): string {
    if IsMeta(c) then ['\\', c] else [c]
  }

  function LikeToRegex(pattern: string): string {
    if pattern == [] then []
    else if pattern[0] == '%' then ".*" + LikeToRegex(pattern[1..])
    else if pattern[0] == '_' then "." + LikeToRegex(pattern[1..])
    else if pattern[0] == '\\' then
      if |pattern| == 1 then [] else ['\\', pattern[1]] + LikeToRegex(pattern[2..])
    else EscapeChar(pattern[0]) + LikeToRegex(pattern[1..])
  }

  /** What one pattern character other than a backslash contributes. */
  function EmitChar(c: char): string {
    if c == '%' then ".*" else if c == '_' then "." else EscapeChar(c)
  }

  lemma EmitStep(pattern: string, i: nat)
    requires i < |pattern|
    ensures pattern[i] != '\\' ==> LikeToRegex(pattern[i..]) == EmitChar(pattern[i]) + LikeToRegex(pattern[i + 1..])
    ensures pattern[i] == '\\' && i + 1 < |pattern| ==>
              LikeToRegex(pattern[i..]) == ['\\', pattern[i + 1]] + LikeToRegex(pattern[i + 2..])
  {
    assert pattern[i..][1..] == pattern[i + 1..];
    if i + 1 < |pattern| {
      assert pattern[i..][2..] == pattern[i + 2..];
    }
  }

  /** `sql_like_to_regex`: one pass over the characters, appending to `out`. */
  method SqlLikeToRegex(pattern: string) returns (out: string)
    ensures out == LikeToRegex(pattern)
  {
    out := [];
    var i := 0;
    while i < |pattern|
      invariant 0 <= i <= |pattern|
      invariant out + LikeToRegex(pattern[i..]) == LikeToRegex(pattern)
    {
      EmitStep(pattern, i);
      if pattern[i] != '\\' {
        ghost var rest := LikeToRegex(pattern[i + 1..]);
        assert out + (EmitChar(pattern[i]) + rest) == (out + EmitChar(pattern[i])) + rest;
        out := out + EmitChar(pattern[i]);
        i := i + 1;
      } else if i + 1 < |pattern| {
        ghost var rest := LikeToRegex(pattern[i + 2..]);
        assert out + (['\\', pattern[i + 1]] + rest) == (out + ['\\', pattern[i + 1]]) + rest;
        out := out + ['\\', pattern[i + 1]];
        i := i + 2;
      } else {
        assert pattern[i..] == ['\\'];
        return;
      }
    }
  }

  // ----- meaning of the emitted regular-expression subset -----

  datatype Token = Exactly(c: char) | AnyChar | AnyRun

  /** Reads the emitted subset: literals, escaped characters, `.` and `.*`. */
  function ParseRegex(text: string): Option<seq<Token>> {
    if text == [] then Some([])
    else if text[0] == '\\' then
      if |text| >= 2 && IsEscapable(text[1])
      then Cons(Exactly(text[1]), ParseRegex(text[2..]))
      else None
    else if text[0] == '.' then
      if |text| >= 2 && text[1] == '*'
      then Cons(AnyRun, ParseRegex(text[2..]))
      else Cons(AnyChar, ParseRegex(text[1..]))
    else if IsMeta(text[0]) && text[0] !in {'#', '&', '-', '~', ']', '}'} then None
    else Cons(Exactly(text[0]), ParseRegex(text[1..]))
  }

  function Cons(t: Token, rest: Option<seq<Token>>): Option<seq<Token>> {
    match rest
    case Some(ts) => Some([t] + ts)
    case None => None
  }

  /** `.` matches every character except the newline. */
  predicate DotMatches(c: char) {
    c != '\n'
  }

  /** The whole target is matched by the token list. */
  predicate TokensMatch(ts: seq<Token>, target: string)
    decreases |ts|, |target|
  {
    if ts == [] then target == []
    else match ts[0]
      case Exactly(c) => target != [] && target[0] == c && TokensMatch(ts[1..], target[1..])
      case AnyChar => target != [] && DotMatches(target[0]) && TokensMatch(ts[1..], target[1..])
      case AnyRun =>
        || TokensMatch(ts[1..], target)
        || (target != [] && DotMatches(target[0]) && TokensMatch(ts, target[1..]))
  }

  /** What the regular-expression engine answers on any text and target; `None` is a refused text. */
  type Engine = (string, string) -> Option<bool>

  /** `Regex::new(text)` followed by `is_match`: the meaning above for an anchored text of the subset,
      the engine's own answer for any other text. */
  function RegexMatches(engine: Engine, text: string, target: string): Option<bool> {
    if |text| >= 2 && text[0] == '^' && text[|text| - 1] == '$' then
      match ParseRegex(text[1..|text| - 1])
      case Some(ts) => Some(TokensMatch(ts, target))
      case None => engine(text, target)
    else engine(text, target)
  }

  // ----- LIKE itself -----

  /** Section 8.5 of ISO/IEC 9075:1992 with backslash as the escape character; a backslash with
      nothing after it is dropped. */
  predicate LikeHolds(pattern: string, target: string)
    decreases |pattern|, |target|
  {
    if pattern == [] || pattern == ['\\'] then target == []
    else if pattern[0] == '%' then
      || LikeHolds(pattern[1..], target)
      || (target != [] && LikeHolds(pattern, target[1..]))
    else if pattern[0] == '\\' then
      target != [] && pattern[1] == target[0] && LikeHolds(pattern[2..], target[1..])
    else
      target != [] && (pattern[0] == '_' || pattern[0] == target[0]) && LikeHolds(pattern[1..], target[1..])
  }

  /** The same, with wildcards that stop at a newline: what the compiled pattern means. */
  predicate LineLikeHolds(pattern: string, target: string)
    decreases |pattern|, |target|
  {
    if pattern == [] || pattern == ['\\'] then target == []
    else if pattern[0] == '%' then
      || LineLikeHolds(pattern[1..], target)
      || (target != [] && DotMatches(target[0]) && LineLikeHolds(pattern, target[1..]))
    else if pattern[0] == '\\' then
      target != [] && pattern[1] == target[0] && LineLikeHolds(pattern[2..], target[1..])
    else
      && target != []
      && (if pattern[0] == '_' then DotMatches(target[0]) else pattern[0] == target[0])
      && LineLikeHolds(pattern[1..], target[1..])
  }

  /** Every backslash stands before a character the engine takes literally, or at the very end.
      A pattern without backslashes qualifies. */
  predicate CleanEscapes(pattern: string) {
    if pattern == [] || pattern == ['\\'] then true
    else if pattern[0] == '\\' then IsEscapable(pattern[1]) && CleanEscapes(pattern[2..])
    else CleanEscapes(pattern[1..])
  }

  function TokenOf(c: char): Token {
    if c == '%' then AnyRun else if c == '_' then AnyChar else Exactly(c)
  }

  function TokensOf(pattern: string): seq<Token> {
    if pattern == [] || pattern == ['\\'] then []
    else if pattern[0] == '\\' then [Exactly(pattern[1])] + TokensOf(pattern[2..])
    else [TokenOf(pattern[0])] + TokensOf(pattern[1..])
  }

  /** Reading back the emitted text recovers one token per pattern element. */
  lemma {:induction false} ParseEmitted(pattern: string)
    requires CleanEscapes(pattern)
    ensures ParseRegex(LikeToRegex(pattern)) == Some(TokensOf(pattern))
    ensures LikeToRegex(pattern) == [] || LikeToRegex(pattern)[0] != '*'
  {
    if pattern == [] || pattern == ['\\'] {
    } else {
      var n := if pattern[0] == '\\' then 2 else 1;
      ParseEmitted(pattern[n..]);
      var text, rest := LikeToRegex(pattern), LikeToRegex(pattern[n..]);
      assert text[|text| - |rest|..] == rest;
    }
  }

  lemma {:induction false} TokensMeaning(pattern: string, target: string)
    ensures TokensMatch(TokensOf(pattern), target) == LineLikeHolds(pattern, target)
    decreases |pattern|, |target|
  {
    if pattern == [] || pattern == ['\\'] {
    } else {
      var n := if pattern[0] == '\\' then 2 else 1;
      assert TokensOf(pattern)[1..] == TokensOf(pattern[n..]);
      TokensMeaning(pattern[n..], target);
      if target != [] {
        TokensMeaning(pattern[n..], target[1..]);
        TokensMeaning(pattern, target[1..]);
      }
    }
  }

  /** For every pattern whose backslashes escape punctuation and for every target, the compiled
      regular expression is accepted and means LIKE with line-bound wildcards. */
  lemma LikeCompilation(engine: Engine, pattern: string, target: string)
    requires CleanEscapes(pattern)
    ensures RegexMatches(engine, "^" + LikeToRegex(pattern) + "$", target) == Some(LineLikeHolds(pattern, target))
  {
    var text := "^" + LikeToRegex(pattern) + "$";
    assert text[1..|text| - 1] == LikeToRegex(pattern);
    ParseEmitted(pattern);
    TokensMeaning(pattern, target);
  }

  lemma {:induction false} NoBackslashIsClean(pattern: string)
    requires '\\' !in pattern
    ensures CleanEscapes(pattern)
  {
    if pattern != [] {
      NoBackslashIsClean(pattern[1..]);
    }
  }

  /** Line-bound wildcards are ordinary LIKE wildcards on targets without a newline. */
  lemma {:induction false} LineLikeIsLike(pattern: string, target: string)
    requires '\n' !in target
    ensures LineLikeHolds(pattern, target) == LikeHolds(pattern, target)
    decreases |pattern|, |target|
  {
    if pattern == [] || pattern == ['\\'] {
    } else {
      var n := if pattern[0] == '\\' then 2 else 1;
      LineLikeIsLike(pattern[n..], target);
      if target != [] {
        LineLikeIsLike(pattern[n..], target[1..]);
        LineLikeIsLike(pattern, target[1..]);
      }
    }
  }

  function Newlines(s: string): nat {
    if s == [] then 0 else (if s[0] == '\n' then 1 else 0) + Newlines(s[1..])
  }

  /** The newlines that the pattern itself spells out. */
  function LiteralNewlines(pattern: string): nat {
    if pattern == [] || pattern == ['\\'] then 0
    else if pattern[0] == '\\' then (if pattern[1] == '\n' then 1 else 0) + LiteralNewlines(pattern[2..])
    else (if pattern[0] == '\n' then 1 else 0) + LiteralNewlines(pattern[1..])
  }

  lemma {:induction false} LikeNeedsNewlines(pattern: string, target: string)
    requires LikeHolds(pattern, target)
    ensures Newlines(target) >= LiteralNewlines(pattern)
    decreases |pattern|, |target|
  {
    if pattern == [] || pattern == ['\\'] {
    } else if pattern[0] == '%' {
      if LikeHolds(pattern[1..], target) {
        LikeNeedsNewlines(pattern[1..], target);
      } else {
        LikeNeedsNewlines(pattern, target[1..]);
      }
    } else {
      LikeNeedsNewlines(pattern[if pattern[0] == '\\' then 2 else 1..], target[1..]);
    }
  }

  /** Line-bound LIKE is LIKE on exactly those targets that have no newline beyond the pattern's own. */
  lemma {:induction false} LineLikeExactly(pattern: string, target: string)
    ensures LineLikeHolds(pattern, target)
       <==> LikeHolds(pattern, target) && Newlines(target) == LiteralNewlines(pattern)
    decreases |pattern|, |target|
  {
    if pattern == [] || pattern == ['\\'] {
    } else if pattern[0] == '%' {
      LineLikeExactly(pattern[1..], target);
      if target != [] {
        LineLikeExactly(pattern, target[1..]);
        if LikeHolds(pattern, target[1..]) {
          LikeNeedsNewlines(pattern, target[1..]);
        }
      }
    } else if target != [] {
      var n := if pattern[0] == '\\' then 2 else 1;
      LineLikeExactly(pattern[n..], target[1..]);
      if LikeHolds(pattern[n..], target[1..]) {
        LikeNeedsNewlines(pattern[n..], target[1..]);
      }
    }
  }

  /** What `eval` computes for LIKE on every target: the standard meaning, and no newline beyond
      those the pattern spells out. */
  lemma LikeIsExactly(engine: Engine, pattern: string, target: string)
    requires CleanEscapes(pattern)
    ensures RegexMatches(engine, "^" + LikeToRegex(pattern) + "$", target)
         == Some(LikeHolds(pattern, target) && Newlines(target) == LiteralNewlines(pattern))
  {
    LikeCompilation(engine, pattern, target);
    LineLikeExactly(pattern, target);
  }

  /** For patterns without a backslash and targets without a newline it is LIKE. */
  lemma PlainLike(engine: Engine, pattern: string, target: string)
    requires '\\' !in pattern && '\n' !in target
    ensures RegexMatches(engine, "^" + LikeToRegex(pattern) + "$", target) == Some(LikeHolds(pattern, target))
  {
    NoBackslashIsClean(pattern);
    LikeCompilation(engine, pattern, target);
    LineLikeIsLike(pattern, target);
  }

  /** Any other escape leaves the subset: what such a pattern means is the engine's business. */
  lemma {:induction false} UncleanLeavesSubset(pattern: string)
    requires !CleanEscapes(pattern)
    ensures ParseRegex(LikeToRegex(pattern)) == None
  {
    var n := if pattern[0] == '\\' then 2 else 1;
    var text := LikeToRegex(pattern);
    if pattern[0] != '\\' || IsEscapable(pattern[1]) {
      UncleanLeavesSubset(pattern[n..]);
      var rest := LikeToRegex(pattern[n..]);
      assert text[|text| - |rest|..] == rest;
    }
  }

  /** So LIKE is decided by the subset exactly for the patterns with clean escapes. */
  lemma EngineDecidesUnclean(engine: Engine, pattern: string, target: string)
    requires !CleanEscapes(pattern)
    ensures RegexMatches(engine, "^" + LikeToRegex(pattern) + "$", target)
         == engine("^" + LikeToRegex(pattern) + "$", target)
  {
    var text := "^" + LikeToRegex(pattern) + "$";
    assert text[1..|text| - 1] == LikeToRegex(pattern);
    UncleanLeavesSubset(pattern);
  }

  /** The newline restriction is real: `%` should match every string. */
  lemma NewlineDefeatsPercent(engine: Engine)
    ensures LikeHolds("%", "\n") && RegexMatches(engine, "^" + LikeToRegex("%") + "$", "\n") == Some(false)
  {
    LikeCompilation(engine, "%", "\n");
    assert "%"[1..] == "" && "\n"[1..] == "";
    assert LikeHolds("", "") && LikeHolds("%", "");
  }
}

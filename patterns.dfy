/** Hand-written matchers for the regular expressions the SQL guard applies, and
    `re.sub` / `re.search` / `re.findall` over them. Each matcher returns the end of the
    match that Python's backtracking engine would find at a given start (there is at most
    one for every pattern here), so substitution and search scan left to right exactly as
    `re` does. All patterns are used with `re.IGNORECASE` unless noted; a literal is
    compared against the lower-cased text. */
module Patterns {
  import opened Maybe
  import opened Text

  /** The lower-case literal `lit` matches `s` at `i`, ignoring ASCII case. */
  predicate LiteralAt(s: string, i: nat, lit: string) {
    i + |lit| <= |s| && Lower(s[i..i + |lit|]) == lit
  }

  /** `\b` at position `i`. */
  predicate Boundary(s: string, i: nat) {
    (0 < i <= |s| && IsWordChar(s[i - 1])) != (i < |s| && IsWordChar(s[i]))
  }

  /** `$` without MULTILINE: the end of the text, or just before a final newline. */
  predicate EndAnchor(s: string, i: nat) {
    i == |s| || (i + 1 == |s| && s[i] == '\n')
  }

  /** The end of `\s*` starting at `i`. */
  function SkipSpaces(s: string, i: nat): (j: nat)
    requires i <= |s|
    ensures i <= j <= |s|
    ensures forall k :: i <= k < j ==> IsSpace(s[k])
    ensures j == |s| || !IsSpace(s[j])
    decreases |s| - i
  {
    if i < |s| && IsSpace(s[i]) then SkipSpaces(s, i + 1) else i
  }

  /** The end of `[a-zA-Z0-9_]*` (equivalently `\w*`) starting at `i`. */
  function SkipWord(s: string, i: nat): (j: nat)
    requires i <= |s|
    ensures i <= j <= |s|
    ensures forall k :: i <= k < j ==> IsWordChar(s[k])
    ensures j == |s| || !IsWordChar(s[j])
    decreases |s| - i
  {
    if i < |s| && IsWordChar(s[i]) then SkipWord(s, i + 1) else i
  }

  /** The end of ``[`\w]*`` starting at `i`. */
  function SkipTicked(s: string, i: nat): (j: nat)
    requires i <= |s|
    ensures i <= j <= |s|
    ensures forall k :: i <= k < j ==> IsWordChar(s[k]) || s[k] == '`'
    decreases |s| - i
  {
    if i < |s| && (IsWordChar(s[i]) || s[i] == '`') then SkipTicked(s, i + 1) else i
  }

  /** The first index at or after `i` holding `c`, or `|s|`. */
  function FindFrom(s: string, i: nat, c: char): (j: nat)
    requires i <= |s|
    ensures i <= j <= |s|
    ensures forall k :: i <= k < j ==> s[k] != c
    ensures j < |s| ==> s[j] == c
    decreases |s| - i
  {
    if i == |s| || s[i] == c then i else FindFrom(s, i + 1, c)
  }

  /** A non-empty run of ASCII word characters: such a name stands for itself inside a
      regular expression. */
  predicate Plain(x: string) {
    x != [] && forall k :: 0 <= k < |x| ==> IsWordChar(x[k])
  }

  /** The patterns, each with its source text. */
  datatype Pattern =
    | TrailingFence           // \s*```$
    | Spaces                  // \s+               (no flags)
    | Ilike                   // \bILIKE\b
    | EmptyJoin               // JOIN\s+[`\w]+\s+ON\s+[^=]+=\s*(;|$|\)|,|\s)
    | NullJoin                // JOIN\s+[`\w]+\s+ON\s+[^=]+=\s*(['"]{2}|NULL)
    | Word(w: string)         // \b{w}\b            for a lower-case plain w
    | Dotted(t: string, c: string)  // {t}\.\s*{c}        for lower-case plain t, c
    | Ticked(t: string, c: string)  // `?{t}`?\.\s*`?{c}`?

  /** The shared head of the two JOIN patterns, ``JOIN\s+[`\w]+\s+ON\s+[^=]+=``: the index
      of the `=` it stops at. `[^=]+` is greedy but cannot pass an `=`, so the `=` is the
      first one after `ON` and its leading `\s`. */
  function JoinHead(s: string, i: nat): (r: Option<nat>)
    ensures r.Some? ==> i + 4 < r.value < |s| && s[r.value] == '='
  {
    if !LiteralAt(s, i, "join") then None
    else
      var a := SkipSpaces(s, i + 4);
      if a == i + 4 then None
      else
        // [`\w]+ is greedy and the next \s+ needs a space, which it cannot hold back
        var b := SkipTicked(s, a);
        if b == a then None
        else
          var c := SkipSpaces(s, b);
          if c == b || !LiteralAt(s, c, "on") then None
          else
            var d := c + 2;
            if d == |s| || !IsSpace(s[d]) then None
            else
              // \s+ then [^=]+: at least one space and one more non-'=' character
              var e := FindFrom(s, d, '=');
              if e < |s| && e >= d + 2 then Some(e) else None
  }

  /** `\s*(;|$|\)|,|\s)` after the `=` at `e`. The greedy `\s*` gives back its last
      space when nothing else follows. */
  function EmptyJoinTail(s: string, e: nat): (r: Option<nat>)
    requires e < |s|
    ensures r.Some? ==> e < r.value <= |s|
  {
    var f := SkipSpaces(s, e + 1);
    if f == |s| then Some(f)
    else if s[f] == ';' || s[f] == ')' || s[f] == ',' then Some(f + 1)
    else if f > e + 1 then Some(f)
    else None
  }

  predicate IsQuote(c: char) {
    c == '\'' || c == '"'
  }

  /** `\s*(['"]{2}|NULL)` after the `=` at `e`. */
  function NullJoinTail(s: string, e: nat): (r: Option<nat>)
    requires e < |s|
    ensures r.Some? ==> e < r.value <= |s|
  {
    var f := SkipSpaces(s, e + 1);
    if f + 2 <= |s| && IsQuote(s[f]) && IsQuote(s[f + 1]) then Some(f + 2)
    else if LiteralAt(s, f, "null") then Some(f + 4)
    else None
  }

  /** The end of the match of `p` starting at `i`, if there is one. Every pattern here
      matches at least one character. */
  function MatchAt(p: Pattern, s: string, i: nat): (r: Option<nat>)
    requires i < |s|
    ensures r.Some? ==> i < r.value <= |s|
  {
    match p
    case TrailingFence =>
      var j := SkipSpaces(s, i);
      if OccursAt(s, "```", j) && EndAnchor(s, j + 3) then Some(j + 3) else None
    case Spaces =>
      if IsSpace(s[i]) then Some(SkipSpaces(s, i)) else None
    case Ilike =>
      if Boundary(s, i) && LiteralAt(s, i, "ilike") && Boundary(s, i + 5) then Some(i + 5) else None
    case EmptyJoin =>
      (match JoinHead(s, i)
       case None => None
       case Some(e) => EmptyJoinTail(s, e))
    case NullJoin =>
      (match JoinHead(s, i)
       case None => None
       case Some(e) => NullJoinTail(s, e))
    case Word(w) =>
      if w != [] && Boundary(s, i) && LiteralAt(s, i, w) && Boundary(s, i + |w|) then Some(i + |w|)
      else None
    case Dotted(t, c) =>
      if t != [] && c != [] && LiteralAt(s, i, t) && i + |t| < |s| && s[i + |t|] == '.' then
        var j := SkipSpaces(s, i + |t| + 1);
        if LiteralAt(s, j, c) then Some(j + |c|) else None
      else None
    case Ticked(t, c) =>
      var a := if s[i] == '`' then i + 1 else i;
      if t != [] && c != [] && LiteralAt(s, a, t) then
        var b := a + |t|;
        var b' := if b < |s| && s[b] == '`' then b + 1 else b;
        if b' < |s| && s[b'] == '.' then
          var j := SkipSpaces(s, b' + 1);
          var j' := if j < |s| && s[j] == '`' then j + 1 else j;
          if LiteralAt(s, j', c) then
            var e := j' + |c|;
            Some(if e < |s| && s[e] == '`' then e + 1 else e)
          else None
        else None
      else None
  }

  /** `re.sub(p, repl, s)` from index `i` on: every leftmost non-overlapping match is
      replaced by `repl`, the other characters are kept. */
  function ReplaceFrom(p: Pattern, s: string, repl: string, i: nat): string
    requires i <= |s|
    decreases |s| - i
  {
    if i == |s| then []
    else
      match MatchAt(p, s, i)
      case Some(e) => repl + ReplaceFrom(p, s, repl, e)
      case None => [s[i]] + ReplaceFrom(p, s, repl, i + 1)
  }

  function Sub(p: Pattern, s: string, repl: string): string {
    ReplaceFrom(p, s, repl, 0)
  }

  /** Where `p` matches nowhere, substitution leaves the text as it is. */
  lemma {:induction false} ReplaceNoMatch(p: Pattern, s: string, repl: string, i: nat)
    requires i <= |s|
    requires forall k :: i <= k < |s| ==> MatchAt(p, s, k).None?
    ensures ReplaceFrom(p, s, repl, i) == s[i..]
    decreases |s| - i
  {
    if i < |s| {
      ReplaceNoMatch(p, s, repl, i + 1);
      assert s[i..] == [s[i]] + s[i + 1..];
    }
  }

  // ---------------------------------------------------------------------------
  // Properties of the rewrites that the cleaning pipeline needs

  /** No `;` occurs except possibly as the last character. */
  predicate SemicolonOnlyLast(t: string) {
    forall k :: 0 <= k < |t| - 1 ==> t[k] != ';'
  }

  lemma SemicolonOnlyLastSlice(t: string, a: nat, b: nat)
    requires a <= b <= |t| && SemicolonOnlyLast(t)
    ensures SemicolonOnlyLast(t[a..b])
  {
  }

  /** A substitution whose replacement has no `;` does not move a final `;` away from
      the end, nor create one. */
  lemma {:induction false} ReplaceKeepsSemicolonLast(p: Pattern, s: string, repl: string, i: nat)
    requires i <= |s| && ';' !in repl
    requires forall k :: i <= k < |s| - 1 ==> s[k] != ';'
    ensures SemicolonOnlyLast(ReplaceFrom(p, s, repl, i))
    decreases |s| - i
  {
    if i < |s| {
      match MatchAt(p, s, i)
      case Some(e) =>
        ReplaceKeepsSemicolonLast(p, s, repl, e);
        SemicolonLastAfter(repl, ReplaceFrom(p, s, repl, e));
      case None =>
        ReplaceKeepsSemicolonLast(p, s, repl, i + 1);
        SemicolonLastAfter([s[i]], ReplaceFrom(p, s, repl, i + 1));
    }
  }

  /** Text without `;` in front of text whose only `;` is last keeps the `;` last. */
  lemma SemicolonLastAfter(head: string, rest: string)
    requires SemicolonOnlyLast(rest)
    requires ';' !in head || rest == []
    requires rest == [] ==> SemicolonOnlyLast(head)
    ensures SemicolonOnlyLast(head + rest)
  {
    var t := head + rest;
    forall k | 0 <= k < |t| - 1 ensures t[k] != ';' {
      if k < |head| {
        assert t[k] == head[k];
      } else {
        assert t[k] == rest[k - |head|];
      }
    }
  }

  /** The text has no whitespace other than single spaces. */
  predicate Collapsed(t: string) {
    && (forall k :: 0 <= k < |t| && IsSpace(t[k]) ==> t[k] == ' ')
    && (forall k :: 0 <= k < |t| - 1 ==> !(t[k] == ' ' && t[k + 1] == ' '))
  }

  /** `re.sub(r'\s+', ' ', s)` from `i` on is collapsed, and it starts with a space only
      where the input does. */
  lemma {:induction false} CollapseFrom(s: string, i: nat)
    requires i <= |s|
    ensures Collapsed(ReplaceFrom(Spaces, s, " ", i))
    ensures ReplaceFrom(Spaces, s, " ", i) != [] && ReplaceFrom(Spaces, s, " ", i)[0] == ' '
            ==> IsSpace(s[i])
    decreases |s| - i
  {
    if i < |s| {
      var r := ReplaceFrom(Spaces, s, " ", i);
      match MatchAt(Spaces, s, i)
      case Some(e) =>
        CollapseFrom(s, e);
        var rest := ReplaceFrom(Spaces, s, " ", e);
        assert r == " " + rest;
        if rest != [] {
          assert e < |s| && !IsSpace(s[e]);
          assert r[1] == rest[0];
        }
      case None =>
        CollapseFrom(s, i + 1);
        var rest := ReplaceFrom(Spaces, s, " ", i + 1);
        assert r == [s[i]] + rest;
        assert !IsSpace(s[i]);
    }
  }

  /** `re.sub(r'\s+', ' ', s)` leaves no tab, newline or other whitespace but single
      spaces. */
  lemma Collapse(s: string)
    ensures Collapsed(Sub(Spaces, s, " "))
  {
    CollapseFrom(s, 0);
  }

  lemma CollapsedSlice(t: string, a: nat, b: nat)
    requires a <= b <= |t| && Collapsed(t)
    ensures Collapsed(t[a..b])
  {
    assert forall k :: 0 <= k < b - a ==> t[a..b][k] == t[a + k];
  }

  // ---------------------------------------------------------------------------
  // The anchored rewrites, each of which can match only at the start of the text

  /** `re.sub(r'^```sql\s*', '', s, flags=re.IGNORECASE)`. */
  function DropSqlFence(s: string): (r: string)
    ensures LiteralAt(s, 0, "```sql") ==> r == s[SkipSpaces(s, 6)..]
    ensures !LiteralAt(s, 0, "```sql") ==> r == s
  {
    if LiteralAt(s, 0, "```sql") then s[SkipSpaces(s, 6)..] else s
  }

  /** `re.sub(r'^```\s*', '', s)`. */
  function DropFence(s: string): (r: string)
    ensures StartsWith(s, "```") ==> r == s[SkipSpaces(s, 3)..]
    ensures !StartsWith(s, "```") ==> r == s
  {
    if StartsWith(s, "```") then s[SkipSpaces(s, 3)..] else s
  }

  /** One of SELECT, WITH, INSERT, UPDATE, DELETE starts at `i`, in any case. */
  predicate StatementKeywordAt(s: string, i: nat) {
    || LiteralAt(s, i, "select") || LiteralAt(s, i, "with") || LiteralAt(s, i, "insert")
    || LiteralAt(s, i, "update") || LiteralAt(s, i, "delete")
  }

  /** The first statement keyword at or after `i`. */
  function FirstKeyword(s: string, i: nat): (r: Option<nat>)
    requires i <= |s|
    ensures r.Some? ==> i <= r.value < |s| && StatementKeywordAt(s, r.value)
    ensures forall k :: i <= k < |s| && (r.None? || k < r.value) ==> !StatementKeywordAt(s, k)
    decreases |s| - i
  {
    if i == |s| then None
    else if StatementKeywordAt(s, i) then Some(i)
    else FirstKeyword(s, i + 1)
  }

  /** `re.sub(r'^.*?(SELECT|WITH|INSERT|UPDATE|DELETE)', r'\1', s, flags=re.I | re.S)`:
      the lazy prefix is the text before the first keyword, and the keyword itself is
      put back in its original spelling. */
  function DropLeadingProse(s: string): (r: string)
    ensures FirstKeyword(s, 0).Some? ==> r == s[FirstKeyword(s, 0).value..]
                                           && StatementKeywordAt(r, 0)
    ensures FirstKeyword(s, 0).None? ==> r == s
  {
    match FirstKeyword(s, 0)
    case Some(k) =>
      KeywordShift(s, k);
      s[k..]
    case None => s
  }

  /** A keyword found at `k` starts the text cut at `k`. */
  lemma KeywordShift(s: string, k: nat)
    requires k <= |s| && StatementKeywordAt(s, k)
    ensures StatementKeywordAt(s[k..], 0)
  {
    forall lit: string | k + |lit| <= |s| ensures s[k..][0..|lit|] == s[k..k + |lit|] {
    }
  }

  /** `re.sub(r';\s*.*$', ';', s, flags=re.DOTALL)`: the text after the first `;` goes. */
  function DropAfterSemicolon(s: string): (r: string)
    ensures ';' in s ==> r == s[..IndexOfChar(s, ';')] + ";"
    ensures ';' !in s ==> r == s
    ensures SemicolonOnlyLast(r)
  {
    if ';' in s then s[..IndexOfChar(s, ';')] + ";" else s
  }

  // ---------------------------------------------------------------------------
  // Texts the rewrites leave alone

  /** `p` matches nowhere in `s`. */
  predicate Untouched(p: Pattern, s: string) {
    forall k :: 0 <= k < |s| ==> MatchAt(p, s, k).None?
  }

  /** Substitution copies the text up to `m` when `p` matches nowhere before it. */
  lemma {:induction false} ReplaceUntil(p: Pattern, s: string, repl: string, i: nat, m: nat)
    requires i <= m <= |s|
    requires forall k :: i <= k < m ==> MatchAt(p, s, k).None?
    ensures ReplaceFrom(p, s, repl, i) == s[i..m] + ReplaceFrom(p, s, repl, m)
    decreases m - i
  {
    if i == m {
      assert s[i..m] == [];
    } else {
      ReplaceStep(p, s, repl, i);
      ReplaceUntil(p, s, repl, i + 1, m);
      ConsSlice(s, i, m, ReplaceFrom(p, s, repl, m), ReplaceFrom(p, s, repl, i), ReplaceFrom(p, s, repl, i + 1));
    }
  }

  lemma ConsSlice(s: string, i: nat, m: nat, rest: string, x: string, y: string)
    requires i < m <= |s|
    requires x == [s[i]] + y && y == s[i + 1..m] + rest
    ensures x == s[i..m] + rest
  {
    assert [s[i]] + s[i + 1..m] == s[i..m];
  }

  /** Where `p` does not match, substitution copies the character. */
  lemma ReplaceStep(p: Pattern, s: string, repl: string, i: nat)
    requires i < |s| && MatchAt(p, s, i).None?
    ensures ReplaceFrom(p, s, repl, i) == [s[i]] + ReplaceFrom(p, s, repl, i + 1)
  {
  }

  /** A lower-case literal matched anywhere is contained in the lowered text. */
  lemma LiteralContained(s: string, k: nat, lit: string)
    ensures LiteralAt(s, k, lit) ==> Contains(Lower(s), lit)
  {
    if k + |lit| <= |s| {
      LowerSlice(s, k, k + |lit|);
      assert LiteralAt(s, k, lit) ==> OccursAt(Lower(s), lit, k);
    }
  }

  /** Without the letters `ilike`, the ILIKE pattern matches nowhere. */
  lemma IlikeFree(s: string)
    requires !Contains(Lower(s), "ilike")
    ensures Untouched(Ilike, s)
  {
    forall k | 0 <= k < |s| ensures MatchAt(Ilike, s, k).None? {
      LiteralContained(s, k, "ilike");
    }
  }

  /** Without the letters `join`, neither dangling-JOIN pattern matches. */
  lemma JoinFree(s: string)
    requires !Contains(Lower(s), "join")
    ensures Untouched(EmptyJoin, s) && Untouched(NullJoin, s)
  {
    forall k | 0 <= k < |s| ensures JoinHead(s, k).None? {
      LiteralContained(s, k, "join");
    }
  }

  /** `\s*```$` needs the text to end with a fence, or with a fence and a newline. */
  lemma NoTrailingFence(s: string)
    requires !EndsWith(s, "```")
    requires !(|s| >= 4 && s[|s| - 1] == '\n' && s[|s| - 4..|s| - 1] == "```")
    ensures Untouched(TrailingFence, s)
  {
    forall k | 0 <= k < |s| ensures MatchAt(TrailingFence, s, k).None? {
      FenceAtEnd(s, k);
    }
  }

  lemma FenceAtEnd(s: string, k: nat)
    requires k < |s|
    ensures MatchAt(TrailingFence, s, k).Some? ==>
              || EndsWith(s, "```")
              || (|s| >= 4 && s[|s| - 1] == '\n' && s[|s| - 4..|s| - 1] == "```")
  {
    var j := SkipSpaces(s, k);
    if OccursAt(s, "```", j) && j + 3 == |s| {
      assert s[|s| - 3..] == s[j..j + 3];
    } else if OccursAt(s, "```", j) && j + 4 == |s| && s[j + 3] == '\n' {
      assert s[|s| - 4..|s| - 1] == s[j..j + 3];
    }
  }

  /** Neither opening-fence rewrite touches a text that does not start with a backtick. */
  lemma NoOpeningFence(s: string)
    requires s != [] && s[0] != '`'
    ensures DropSqlFence(s) == s && DropFence(s) == s
  {
    assert !LiteralAt(s, 0, "```sql") by {
      assert |s| >= 6 ==> Lower(s[0..6])[0] == LowerChar(s[0]);
    }
    assert !StartsWith(s, "```") by {
      assert |s| >= 3 ==> s[..3][0] == s[0];
    }
  }

  /** The closing-fence rewrite leaves a text as it is when it ends in no backtick,
      nor in a backtick and a newline. */
  lemma NoClosingFence(s: string)
    requires s != [] && s[|s| - 1] != '`'
    requires |s| >= 2 && s[|s| - 1] == '\n' ==> s[|s| - 2] != '`'
    ensures Sub(TrailingFence, s, "") == s
  {
    assert !EndsWith(s, "```") by {
      assert |s| >= 3 ==> s[|s| - 3..][2] == s[|s| - 1];
    }
    assert !(|s| >= 4 && s[|s| - 1] == '\n' && s[|s| - 4..|s| - 1] == "```") by {
      assert |s| >= 4 ==> s[|s| - 4..|s| - 1][2] == s[|s| - 2];
    }
    NoTrailingFence(s);
    ReplaceNoMatch(TrailingFence, s, "", 0);
    assert s[0..] == s;
  }

  /** `^```sql\s*` takes the fence and the whitespace after it, and `^```\s*` then
      finds nothing. */
  lemma SqlFenceDropped(w: string, rest: string)
    requires forall k :: 0 <= k < |w| ==> IsSpace(w[k])
    requires rest != [] && !IsSpace(rest[0]) && rest[0] != '`'
    ensures DropFence(DropSqlFence("```sql" + w + rest)) == rest
  {
    var x := "```sql" + w + rest;
    assert x[0..6] == "```sql";
    LowerUnchanged("```sql");
    assert x[6 + |w|] == rest[0];
    SkipSpacesRun(x, 6, |w|);
    assert x[6 + |w|..] == rest;
    NoOpeningFence(rest);
  }

  /** Before the end of a text ending in a non-space, the closing-fence pattern cannot
      match in that text followed by whitespace and a fence. */
  lemma FenceInside(t: string, w2: string, k: nat)
    requires t != [] && !IsSpace(t[|t| - 1]) && k < |t|
    ensures MatchAt(TrailingFence, t + w2 + "```", k).None?
  {
    var y := t + w2 + "```";
    var j := SkipSpaces(y, k);
    assert y[|t| - 1] == t[|t| - 1];
    assert j < |t|;
    assert j + 4 == |y| ==> y[j + 3] == '`';
  }

  /** `\s*```$` takes the closing fence and the whitespace before it. */
  lemma ClosingFenceDropped(t: string, w2: string)
    requires t != [] && !IsSpace(t[|t| - 1])
    requires forall k :: 0 <= k < |w2| ==> IsSpace(w2[k])
    ensures Sub(TrailingFence, t + w2 + "```", "") == t
  {
    var y := t + w2 + "```";
    forall k | 0 <= k < |t| ensures MatchAt(TrailingFence, y, k).None? {
      FenceInside(t, w2, k);
    }
    ReplaceUntil(TrailingFence, y, "", 0, |t|);
    FenceAtTail(t, w2);
    assert y[0..|t|] == t;
  }

  /** At the end of `t`, the closing-fence pattern takes the rest. */
  lemma FenceAtTail(t: string, w2: string)
    requires forall k :: 0 <= k < |w2| ==> IsSpace(w2[k])
    ensures ReplaceFrom(TrailingFence, t + w2 + "```", "", |t|) == []
  {
    var y := t + w2 + "```";
    assert forall k :: |t| <= k < |t| + |w2| ==> y[k] == w2[k - |t|];
    assert y[|t| + |w2|..] == "```";
    FenceMatchEnd(y, |t|, |w2|);
  }

  /** Spaces and then a final fence: the closing-fence pattern matches up to the end. */
  lemma FenceMatchEnd(y: string, i: nat, n: nat)
    requires i + n + 3 == |y|
    requires forall k :: i <= k < i + n ==> IsSpace(y[k])
    requires y[i + n..] == "```"
    ensures MatchAt(TrailingFence, y, i) == Some(|y|)
  {
    assert y[i + n] == y[i + n..][0];
    SkipSpacesRun(y, i, n);
    assert y[i + n..i + n + 3] == y[i + n..];
  }

  /** The lazy prefix before the first keyword is exactly the prose `p`. */
  lemma ProseDropped(p: string, t: string, u: string)
    requires StatementKeywordAt(t, 0)
    requires forall j :: 0 <= j < |p| ==> !StatementKeywordAt(p + t + u, j)
    ensures DropLeadingProse(p + t + u) == t + u
  {
    ProseKeyword(p, t, u);
    ProseRest(p, t, u);
  }

  lemma ProseRest(p: string, t: string, u: string)
    requires FirstKeyword(p + t + u, 0) == Some(|p|)
    ensures DropLeadingProse(p + t + u) == t + u
  {
    assert (p + t + u)[|p|..] == t + u;
  }

  /** The first keyword of `p + t + u` is the one that starts `t`. */
  lemma ProseKeyword(p: string, t: string, u: string)
    requires StatementKeywordAt(t, 0)
    requires forall j :: 0 <= j < |p| ==> !StatementKeywordAt(p + t + u, j)
    ensures FirstKeyword(p + t + u, 0) == Some(|p|)
  {
    KeywordInside(p, t, u);
    FirstKeywordAt(p + t + u, 0, |p|);
  }

  /** The semicolon rewrite drops what follows a statement whose only `;` is its last
      character. */
  lemma SemicolonCut(t: string, u: string)
    requires SemicolonOnlyLast(t) && EndsWith(t, ";")
    ensures DropAfterSemicolon(t + u) == t
  {
    var x := t + u;
    assert t[|t| - 1..] == ";";
    assert x[|t| - 1] == ';';
    assert forall k :: 0 <= k < |t| - 1 ==> x[k] == t[k];
    var i := IndexOfChar(x, ';');
    assert forall k :: 0 <= k < i ==> x[..i][k] == x[k];
    assert i == |t| - 1;
    assert x[..i] + ";" == t;
  }

  /** `\s*` from `i` over `n` whitespace characters stops where they end. */
  lemma {:induction false} SkipSpacesRun(s: string, i: nat, n: nat)
    requires i + n <= |s| && forall k :: i <= k < i + n ==> IsSpace(s[k])
    requires i + n == |s| || !IsSpace(s[i + n])
    ensures SkipSpaces(s, i) == i + n
    decreases n
  {
    if n > 0 {
      SkipSpacesRun(s, i + 1, n - 1);
    }
  }

  /** `re.sub(r'\s+', ' ', s)` leaves a collapsed text as it is. */
  lemma {:induction false} CollapsedFixed(s: string, i: nat)
    requires i <= |s| && Collapsed(s)
    ensures ReplaceFrom(Spaces, s, " ", i) == s[i..]
    decreases |s| - i
  {
    if i < |s| {
      CollapsedFixed(s, i + 1);
      if IsSpace(s[i]) {
        assert i + 1 < |s| ==> !IsSpace(s[i + 1]);
        SkipSpacesRun(s, i, 1);
      }
      assert s[i..] == [s[i]] + s[i + 1..];
    }
  }

  /** The semicolon rewrite leaves a text whose `;` can only be last as it is. */
  lemma DropAfterSemicolonFixed(s: string)
    requires SemicolonOnlyLast(s)
    ensures DropAfterSemicolon(s) == s
  {
    if ';' in s {
      var i := IndexOfChar(s, ';');
      assert i == |s| - 1;
      assert s == s[..i] + [s[i]];
    }
  }

  /** The first statement keyword is the one at `k` when none starts earlier. */
  lemma {:induction false} FirstKeywordAt(s: string, i: nat, k: nat)
    requires i <= k < |s| && StatementKeywordAt(s, k)
    requires forall j :: i <= j < k ==> !StatementKeywordAt(s, j)
    ensures FirstKeyword(s, i) == Some(k)
    decreases k - i
  {
    if i < k {
      FirstKeywordAt(s, i + 1, k);
    }
  }

  /** A statement keyword starts with a letter: neither whitespace nor a backtick. */
  lemma KeywordStart(s: string)
    requires StatementKeywordAt(s, 0)
    ensures s != [] && !IsSpace(s[0]) && s[0] != '`'
  {
    assert Lower(s[0..1])[0] == LowerChar(s[0]);
    assert LiteralAt(s, 0, "select") ==> Lower(s[0..6])[0] == LowerChar(s[0]) == 's';
    assert LiteralAt(s, 0, "with") ==> Lower(s[0..4])[0] == LowerChar(s[0]) == 'w';
    assert LiteralAt(s, 0, "insert") ==> Lower(s[0..6])[0] == LowerChar(s[0]) == 'i';
    assert LiteralAt(s, 0, "update") ==> Lower(s[0..6])[0] == LowerChar(s[0]) == 'u';
    assert LiteralAt(s, 0, "delete") ==> Lower(s[0..6])[0] == LowerChar(s[0]) == 'd';
  }

  /** A keyword at the start of `t` is one at `|p|` in `p + t + u`. */
  lemma KeywordInside(p: string, t: string, u: string)
    requires StatementKeywordAt(t, 0)
    ensures StatementKeywordAt(p + t + u, |p|)
  {
    var x := p + t + u;
    forall n: nat | n <= |t| ensures x[|p|..|p| + n] == t[0..n] {
      assert forall j :: 0 <= j < n ==> x[|p| + j] == t[j];
    }
  }

  // ---------------------------------------------------------------------------
  // re.findall of the table pattern of validate_sql

  /** A lookahead `(?=\s|,|;|$)` at `j`. */
  predicate TableEnd(s: string, j: nat) {
    j >= |s| || IsSpace(s[j]) || s[j] == ',' || s[j] == ';'
  }

  /** The end of one of the keywords `from`, `join`, `update`, `into` at `i`, or `i`. */
  function TableKeywordEnd(s: string, i: nat): (j: nat)
    ensures j == i || (j > i && j <= |s|)
  {
    if LiteralAt(s, i, "from") || LiteralAt(s, i, "join") || LiteralAt(s, i, "into") then i + 4
    else if LiteralAt(s, i, "update") then i + 6
    else i
  }

  /** The match of ``\b(?:from|join|update|into)\s+`?([a-zA-Z0-9_]+)`?(?=\s|,|;|$)`` at
      `i`: the captured name and the end. The name run is greedy; after it the pattern
      either sees the lookahead directly or a backtick and then the lookahead. Giving
      characters of the name back never helps, as the lookahead then sees a word
      character. */
  function TableRefAt(s: string, i: nat): (r: Option<(string, nat)>)
    requires i < |s|
    ensures r.Some? ==> Plain(r.value.0) && i < r.value.1 <= |s|
  {
    if !Boundary(s, i) then None
    else
      var k := TableKeywordEnd(s, i);
      if k == i then None
      else
        var a := SkipSpaces(s, k);
        if a == k then None
        else
          var b := if a < |s| && s[a] == '`' then a + 1 else a;
          var c := SkipWord(s, b);
          if c == b then None
          else if TableEnd(s, c) then Some((s[b..c], c))
          else if s[c] == '`' && TableEnd(s, c + 1) then Some((s[b..c], c + 1))
          else None
  }

  function TableRefsFrom(s: string, i: nat): (r: seq<string>)
    requires i <= |s|
    ensures forall k :: 0 <= k < |r| ==> Plain(r[k])
    decreases |s| - i
  {
    if i == |s| then []
    else
      match TableRefAt(s, i)
      case Some((name, e)) => [name] + TableRefsFrom(s, e)
      case None => TableRefsFrom(s, i + 1)
  }

  /** `re.findall(table_pattern, s, re.IGNORECASE)`: the captured names in order. */
  function TableRefs(s: string): (r: seq<string>)
    ensures forall k :: 0 <= k < |r| ==> Plain(r[k])
  {
    TableRefsFrom(s, 0)
  }

  // ---------------------------------------------------------------------------
  // re.search(r'SELECT\s+(.*?)\s+FROM', s, re.IGNORECASE | re.DOTALL).group(1)

  /** `\s+FROM` matches at `b`. */
  predicate FromAt(s: string, b: nat) {
    b < |s| && IsSpace(s[b]) && LiteralAt(s, SkipSpaces(s, b), "from")
  }

  /** The lazy `(.*?)` started at `a`: the first `b >= a` where `\s+FROM` follows. */
  function LazyEnd(s: string, b: nat): (r: Option<nat>)
    requires b <= |s|
    ensures r.Some? ==> b <= r.value < |s| && FromAt(s, r.value)
    ensures forall k :: b <= k < |s| && (r.None? || k < r.value) ==> !FromAt(s, k)
    decreases |s| - b
  {
    if b == |s| then None
    else if FromAt(s, b) then Some(b)
    else LazyEnd(s, b + 1)
  }

  /** The first `\s+` after SELECT at `base` takes `k` characters (the most it can
      first); on failure the engine gives one back at a time. */
  function TryRun(s: string, base: nat, k: nat): (r: Option<string>)
    requires base + k <= |s|
    decreases k
  {
    if k == 0 then None
    else
      match LazyEnd(s, base + k)
      case Some(b) => Some(s[base + k..b])
      case None => TryRun(s, base, k - 1)
  }

  function SelectAt(s: string, p: nat): Option<string> {
    if !LiteralAt(s, p, "select") then None
    else TryRun(s, p + 6, SkipSpaces(s, p + 6) - (p + 6))
  }

  function SelectFrom(s: string, p: nat): Option<string>
    requires p <= |s|
    decreases |s| - p
  {
    if p == |s| then None
    else
      match SelectAt(s, p)
      case Some(g) => Some(g)
      case None => SelectFrom(s, p + 1)
  }

  /** The first group of the leftmost match of the SELECT-list pattern, if any. */
  function SelectGroup(s: string): Option<string> {
    SelectFrom(s, 0)
  }

  /** `[c.strip().replace('`', '') for c in group.split(',')]`. */
  function SelectItems(group: string): (r: seq<string>)
    ensures |r| == |SplitOn(group, ',')|
    ensures forall k :: 0 <= k < |r| ==> r[k] == RemoveChar(Strip(SplitOn(group, ',')[k]), '`')
  {
    var parts := SplitOn(group, ',');
    seq(|parts|, k requires 0 <= k < |parts| => RemoveChar(Strip(parts[k]), '`'))
  }
}

/** The quote-aware scanner that lifts one inline CHECK constraint out of a migration. */
module ConstraintScanner {
  import opened Wrappers

  datatype ScanError = UnsafeIdentity | NotOneClause | UnsafeClause

  datatype Quote = Unquoted | Literal | Identifier

  // ---------- the two-stage specification ----------

  /** A quote opens a literal or an identifier, and the same quote closes it: one character decides. */
  function Toggle(q: Quote, c: char): Quote {
    match q
    case Unquoted => if c == '\'' then Literal else if c == '"' then Identifier else Unquoted
    case Literal => if c == '\'' then Unquoted else Literal
    case Identifier => if c == '"' then Unquoted else Identifier
  }

  /** The state before character `k` of a text that is unquoted up to `from`. */
  ghost function QuoteAt(s: string, from: nat, k: nat): Quote
    requires k <= |s|
  {
    if k <= from then Unquoted else Toggle(QuoteAt(s, from, k - 1), s[k - 1])
  }

  /** First stage: everything before `from`, everything quoted, and the quotes themselves, blanked out. */
  ghost function Mask(s: string, from: nat): (m: string)
    ensures |m| == |s|
  {
    seq(|s|, k requires 0 <= k < |s| =>
      if from <= k && QuoteAt(s, from, k) == Unquoted && s[k] != '\'' && s[k] != '"' then s[k] else ' ')
  }

  /** Second stage: opening minus closing parentheses among the first `k` characters. */
  ghost function ParenDepth(m: string, k: nat): int
    requires k <= |m|
  {
    if k == 0 then 0
    else ParenDepth(m, k - 1) + if m[k - 1] == '(' then 1 else if m[k - 1] == ')' then -1 else 0
  }

  /** From `from` on, the first character after which the depth is back to zero. */
  ghost predicate FirstReturn(m: string, from: nat, k: nat) {
    from <= k < |m| && ParenDepth(m, k + 1) == 0 && forall j | from < j <= k :: ParenDepth(m, j) != 0
  }

  /** What one character does to an unquoted parenthesis count. */
  function Weight(q: Quote, c: char): int {
    if q != Unquoted then 0 else if c == '(' then 1 else if c == ')' then -1 else 0
  }

  /** One character further: how the state toggles, and how an unquoted parenthesis counts. */
  lemma Step(s: string, from: nat, k: nat)
    requires from <= k < |s|
    ensures QuoteAt(s, from, k + 1) == Toggle(QuoteAt(s, from, k), s[k])
    ensures ParenDepth(Mask(s, from), k + 1) == ParenDepth(Mask(s, from), k) + Weight(QuoteAt(s, from, k), s[k])
  {
  }

  /** A quote that closes and is doubled opens again at once: skipping the pair changes nothing. */
  lemma SkipPair(s: string, from: nat, k: nat)
    requires from <= k && k + 1 < |s| && s[k + 1] == s[k]
    requires QuoteAt(s, from, k) == (if s[k] == '\'' then Literal else Identifier) && (s[k] == '\'' || s[k] == '"')
    ensures QuoteAt(s, from, k + 2) == QuoteAt(s, from, k)
    ensures ParenDepth(Mask(s, from), k + 1) == ParenDepth(Mask(s, from), k)
    ensures ParenDepth(Mask(s, from), k + 2) == ParenDepth(Mask(s, from), k)
  {
    Step(s, from, k);
    Step(s, from, k + 1);
  }

  lemma {:induction false} NothingBefore(s: string, from: nat, k: nat)
    requires k <= from <= |s|
    ensures ParenDepth(Mask(s, from), k) == 0
  {
    if k == 0 {
    } else {
      NothingBefore(s, from, k - 1);
    }
  }

  // ---------- the one-pass scanner ----------

  /** Up to `k` the scanner has the state and the depth of the specification, and the depth has not
      come back to zero. */
  ghost predicate Scanned(s: string, from: nat, k: nat, q: Quote, depth: int) {
    && from <= k <= |s|
    && q == QuoteAt(s, from, k) && depth == ParenDepth(Mask(s, from), k)
    && forall j | from < j <= k :: ParenDepth(Mask(s, from), j) > 0
  }

  lemma ScanStarts(s: string, from: nat)
    requires from <= |s|
    ensures Scanned(s, from, from, Unquoted, 0)
  {
    NothingBefore(s, from, from);
  }

  /** One character on the scanner is still inside, or has found the end. */
  lemma ScanOne(s: string, from: nat, k: nat, q: Quote, depth: int)
    requires Scanned(s, from, k, q, depth) && k < |s| && s[from] == '('
    ensures var after := depth + Weight(q, s[k]);
      if after == 0 then FirstReturn(Mask(s, from), from, k) else Scanned(s, from, k + 1, Toggle(q, s[k]), after)
  {
    Step(s, from, k);
    if k == from {
      NothingBefore(s, from, from);
    }
    hide QuoteAt, Mask, ParenDepth;
  }

  lemma ScanPair(s: string, from: nat, k: nat, q: Quote, depth: int)
    requires Scanned(s, from, k, q, depth) && from < k && k + 1 < |s| && s[k + 1] == s[k]
    requires (q == Literal && s[k] == '\'') || (q == Identifier && s[k] == '"')
    ensures Scanned(s, from, k + 2, q, depth)
  {
    SkipPair(s, from, k);
    hide QuoteAt, Mask, ParenDepth;
  }

  lemma ScanEnds(s: string, from: nat, q: Quote, depth: int)
    requires Scanned(s, from, |s|, q, depth)
    ensures forall k :: !FirstReturn(Mask(s, from), from, k)
  {
    hide QuoteAt, Mask, ParenDepth;
  }

  lemma ScanIsInside(s: string, from: nat, k: nat, q: Quote, depth: int)
    requires Scanned(s, from, k, q, depth)
    ensures if k == from then q == Unquoted && depth == 0 else from < k && depth > 0
  {
    NothingBefore(s, from, from);
  }

  /** One pass with one character of lookahead, skipping doubled quotes; -1 when nothing closes. */
  method ClosingParenthesis(migration: string, openingParenthesis: nat) returns (closing: int)
    requires openingParenthesis < |migration| && migration[openingParenthesis] == '('
    ensures closing >= 0 ==> FirstReturn(Mask(migration, openingParenthesis), openingParenthesis, closing)
    ensures closing < 0 ==> forall k :: !FirstReturn(Mask(migration, openingParenthesis), openingParenthesis, k)
  {
    hide QuoteAt, ParenDepth, Mask, FirstReturn, Scanned;
    var depth := 0;
    var quoted := Unquoted;
    var index := openingParenthesis;
    ScanStarts(migration, openingParenthesis);
    while index < |migration|
      invariant index <= |migration| && Scanned(migration, openingParenthesis, index, quoted, depth)
    {
      var character := migration[index];
      var doubled := index + 1 < |migration| && migration[index + 1] == character;
      ScanOne(migration, openingParenthesis, index, quoted, depth);
      ScanIsInside(migration, openingParenthesis, index, quoted, depth);
      if quoted == Literal {
        if character == '\'' && doubled {
          ScanPair(migration, openingParenthesis, index, quoted, depth);
          index := index + 1;
        } else if character == '\'' {
          quoted := Unquoted;
        }
      } else if quoted == Identifier {
        if character == '"' && doubled {
          ScanPair(migration, openingParenthesis, index, quoted, depth);
          index := index + 1;
        } else if character == '"' {
          quoted := Unquoted;
        }
      } else if character == '\'' {
        quoted := Literal;
      } else if character == '"' {
        quoted := Identifier;
      } else if character == '(' {
        depth := depth + 1;
      } else if character == ')' {
        depth := depth - 1;
        if depth == 0 {
          return index;
        }
      }
      index := index + 1;
    }
    ScanEnds(migration, openingParenthesis, quoted, depth);
    return -1;
  }

  // ---------- the whole extraction ----------

  predicate OccursAt(text: string, pattern: string, k: int) {
    0 <= k <= |text| - |pattern| && text[k..k + |pattern|] == pattern
  }

  /** No statement end and no migration breakpoint arrow. */
  ghost predicate OneStatement(clause: string) {
    ';' !in clause && !exists k :: OccursAt(clause, "-->", k)
  }

  method IsOneStatement(clause: string) returns (b: bool)
    ensures b <==> OneStatement(clause)
  {
    var arrow := IndexOf(clause, "-->", 0);
    b := !(';' in clause || arrow >= 0);
  }

  ghost predicate OnlyOccurrence(text: string, pattern: string, k: int) {
    OccursAt(text, pattern, k) && forall j | OccursAt(text, pattern, j) :: j == k
  }

  /** `text.indexOf(pattern, from)`. */
  method IndexOf(text: string, pattern: string, from: nat) returns (at: int)
    ensures at == -1 || (at >= from && OccursAt(text, pattern, at))
    ensures forall k | from <= k && (at == -1 || k < at) :: !OccursAt(text, pattern, k)
  {
    at := from;
    while at <= |text| - |pattern|
      invariant from <= at
      invariant forall k | from <= k < at :: !OccursAt(text, pattern, k)
    {
      if text[at..at + |pattern|] == pattern {
        return;
      }
      at := at + 1;
    }
    at := -1;
  }

  /** `^[a-z][a-z0-9_]*$`. */
  predicate SafeName(name: string) {
    && name != "" && 'a' <= name[0] <= 'z'
    && forall k | 0 <= k < |name| :: 'a' <= name[k] <= 'z' || '0' <= name[k] <= '9' || name[k] == '_'
  }

  function Prefix(constraintName: string): string {
    "CONSTRAINT \"" + constraintName + "\" CHECK" + " ("
  }

  /** The text has one such constraint, at `start`, its parenthesis closes at `closing`, and the clause
      holds no statement end and no arrow. */
  ghost predicate IsClause(migration: string, prefix: string, start: int, closing: int) {
    && OnlyOccurrence(migration, prefix, start)
    && 0 < |prefix| && start <= closing < |migration|
    && FirstReturn(Mask(migration, start + |prefix| - 1), start + |prefix| - 1, closing)
    && OneStatement(migration[start..closing + 1])
  }

  lemma PrefixOpensOnce(name: string)
    requires SafeName(name)
    ensures var p := Prefix(name); |p| > 0 && p[|p| - 1] == '(' && forall k | 0 <= k < |p| - 1 :: p[k] != '('
  {
    var head, tail := "CONSTRAINT \"", "\" CHECK";
    assert forall k | 0 <= k < |head| :: head[k] != '(';
    assert forall k | 0 <= k < |tail| :: tail[k] != '(';
    assert Prefix(name) == head + name + tail + " (";
  }

  lemma OccurrenceReads(text: string, p: string, k: nat)
    requires OccursAt(text, p, k)
    ensures forall c | k <= c < k + |p| :: text[c] == p[c - k]
  {
    forall c | k <= c < k + |p| ensures text[c] == p[c - k] {
      assert text[c] == text[k..k + |p|][c - k];
    }
  }

  /** A text ending in a character it has nowhere else cannot overlap itself. */
  lemma NoOverlap(text: string, p: string, i: nat, j: nat)
    requires |p| > 0 && forall k | 0 <= k < |p| - 1 :: p[k] != p[|p| - 1]
    requires OccursAt(text, p, i) && OccursAt(text, p, j) && i < j
    ensures i + |p| <= j
  {
    OccurrenceReads(text, p, i);
    assert text[i + |p| - 1] == p[|p| - 1];
    OccurrenceReads(text, p, j);
  }

  /** Where the text occurs, if it occurs once; a second search from its end is enough to know. */
  method FindOnly(text: string, pattern: string) returns (start: int)
    requires |pattern| > 0 && forall k | 0 <= k < |pattern| - 1 :: pattern[k] != pattern[|pattern| - 1]
    ensures start >= 0 ==> OnlyOccurrence(text, pattern, start)
    ensures start < 0 ==> forall k :: !OnlyOccurrence(text, pattern, k)
  {
    start := IndexOf(text, pattern, 0);
    if start < 0 {
      return;
    }
    var second := IndexOf(text, pattern, start + |pattern|);
    if second >= 0 {
      return -1;
    }
    forall k | OccursAt(text, pattern, k) ensures k == start {
      if start < k {
        NoOverlap(text, pattern, start, k);
      }
    }
  }

  /** The clause at the only occurrence of the prefix, if it is well delimited. */
  method LiftClause(migration: string, prefix: string, start: nat) returns (r: Option<string>)
    requires |prefix| > 0 && prefix[|prefix| - 1] == '(' && OnlyOccurrence(migration, prefix, start)
    ensures r.Some? <==> exists closing :: IsClause(migration, prefix, start, closing)
    ensures forall closing | r.Some? && IsClause(migration, prefix, start, closing) ::
      r.value == migration[start..closing + 1]
  {
    OccurrenceReads(migration, prefix, start);
    var openingParenthesis := start + |prefix| - 1;
    hide FirstReturn, Mask, OnlyOccurrence, OneStatement;
    var closing := ClosingParenthesis(migration, openingParenthesis);
    if closing < 0 {
      return None;
    }
    ReturnInRange(Mask(migration, openingParenthesis), openingParenthesis, closing);
    FirstReturnUnique(migration, openingParenthesis, closing);
    var clause := migration[start..closing + 1];
    var clean := IsOneStatement(clause);
    if !clean {
      return None;
    }
    assert IsClause(migration, prefix, start, closing);
    return Some(clause);
  }

  /** Succeeds exactly when the migration holds one well-delimited clause, and lifts that clause. */
  method RequiredInlineCheckConstraint(migration: string, tableName: string, constraintName: string)
      returns (r: Result<string, ScanError>)
    ensures r.Ok? <==>
      && SafeName(tableName) && SafeName(constraintName)
      && exists start, closing :: IsClause(migration, Prefix(constraintName), start, closing)
    ensures forall start, closing | r.Ok? && IsClause(migration, Prefix(constraintName), start, closing) ::
      r.value == "ALTER TABLE \"" + tableName + "\" ADD " + migration[start..closing + 1]
  {
    if !SafeName(tableName) || !SafeName(constraintName) {
      return Err(UnsafeIdentity);
    }
    var prefix := Prefix(constraintName);
    PrefixOpensOnce(constraintName);
    hide Prefix, SafeName, OccursAt, OneStatement, FirstReturn, Mask;
    var start := FindOnly(migration, prefix);
    if start < 0 {
      return Err(NotOneClause);
    }
    var clause := LiftClause(migration, prefix, start);
    if clause.None? {
      return Err(UnsafeClause);
    }
    return Ok("ALTER TABLE \"" + tableName + "\" ADD " + clause.value);
  }

  lemma ReturnInRange(m: string, from: nat, k: nat)
    requires FirstReturn(m, from, k)
    ensures from <= k < |m|
  {
  }

  lemma FirstReturnUnique(s: string, from: nat, k: nat)
    requires FirstReturn(Mask(s, from), from, k)
    ensures forall j | FirstReturn(Mask(s, from), from, j) :: j == k
  {
  }

  // ---------- names and clauses, spelled out ----------

  predicate IsLetter(c: char) {
    'a' <= c <= 'z'
  }

  /** A name is a small letter, and then small letters, digits and underscores. */
  lemma SafeNameForm(s: string, c: char)
    ensures !SafeName("") && (SafeName([c]) <==> IsLetter(c))
    ensures s != "" ==> (SafeName(s + [c]) <==> SafeName(s) && (IsLetter(c) || '0' <= c <= '9' || c == '_'))
  {
    var t := s + [c];
    assert forall k | 0 <= k < |s| :: t[k] == s[k];
    assert t[|s|] == c;
  }

  /** Text that neither quotes nor parenthesizes anything. */
  predicate IsPlain(s: string) {
    forall k | 0 <= k < |s| :: s[k] !in {'(', ')', '\'', '"'}
  }

  function Clause(name: string, body: string): string {
    "CONSTRAINT \"" + name + "\" CHECK (" + body + ")"
  }

  lemma {:induction false} PlainInside(s: string, from: nat, k: nat)
    requires from < k <= |s| && s[from] == '(' && forall j | from < j < k :: s[j] !in {'(', ')', '\'', '"'}
    ensures QuoteAt(s, from, k) == Unquoted && ParenDepth(Mask(s, from), k) == 1
    decreases k
  {
    Step(s, from, k - 1);
    AtStart(s, from);
    hide QuoteAt, ParenDepth, Mask;
    if k == from + 1 {
    } else {
      PlainInside(s, from, k - 1);
    }
  }

  lemma AtStart(s: string, from: nat)
    requires from <= |s|
    ensures QuoteAt(s, from, from) == Unquoted && ParenDepth(Mask(s, from), from) == 0
  {
    NothingBefore(s, from, from);
  }

  /** A clause with a plain body ends at its last character. */
  lemma PlainEnds(s: string, from: nat, to: nat)
    requires from < to < |s| && s[from] == '(' && s[to] == ')'
    requires forall j | from < j < to :: s[j] !in {'(', ')', '\'', '"'}
    ensures FirstReturn(Mask(s, from), from, to)
  {
    hide QuoteAt, ParenDepth, Mask;
    PlainInside(s, from, to);
    Step(s, from, to);
    forall j | from < j <= to ensures ParenDepth(Mask(s, from), j) != 0 {
      PlainInside(s, from, j);
    }
  }

  lemma PrefixText(name: string)
    ensures Prefix(name) == "CONSTRAINT \"" + name + "\" CHECK ("
  {
  }

  /** A plain clause in a text without further parentheses is the clause that is lifted, whole: from its
      CONSTRAINT to its closing parenthesis. */
  lemma PlainClauseLifted(before: string, name: string, body: string, after: string)
    requires SafeName(name) && IsPlain(body) && '(' !in before && '(' !in after
    requires OneStatement(Clause(name, body))
    ensures var migration := before + Clause(name, body) + after;
      var end := |before| + |Clause(name, body)| - 1;
      IsClause(migration, Prefix(name), |before|, end) && migration[|before|..end + 1] == Clause(name, body)
  {
    hide Prefix, Clause, SafeName, OneStatement, FirstReturn, Mask, OccursAt, OnlyOccurrence, IsPlain;
    ClauseParts(name, body);
    var p, clause := Prefix(name), Clause(name, body);
    var migration := before + clause + after;
    var from, end := |before| + |p| - 1, |before| + |clause| - 1;
    PlacedAt(before, p, body, after, migration);
    assert migration[|before|..end + 1] == clause;
    PlainEnds(migration, from, end);
    OnlyThere(migration, p, |before|, from);
  }

  lemma ClauseParts(name: string, body: string)
    requires SafeName(name)
    ensures var p := Prefix(name);
      && Clause(name, body) == p + body + ")" && |p| > 0 && p[|p| - 1] == '('
      && forall k | 0 <= k < |p| - 1 :: p[k] != '('
  {
    PrefixText(name);
    PrefixOpensOnce(name);
  }

  lemma PlacedAt(before: string, p: string, body: string, after: string, migration: string)
    requires migration == before + (p + body + ")") + after && |p| > 0 && p[|p| - 1] == '('
    requires forall k | 0 <= k < |p| - 1 :: p[k] != '('
    requires IsPlain(body) && '(' !in before && '(' !in after
    ensures OccursAt(migration, p, |before|)
    ensures forall k | 0 <= k < |migration| :: migration[k] == '(' <==> k == |before| + |p| - 1
    ensures forall j | |before| + |p| - 1 < j < |before| + |p| + |body| :: migration[j] !in {'(', ')', '\'', '"'}
    ensures migration[|before| + |p| + |body|] == ')'
  {
    assert migration[|before|..|before| + |p|] == p;
    assert forall k | 0 <= k < |before| :: migration[k] == before[k];
    assert forall k | |before| <= k < |before| + |p| :: migration[k] == p[k - |before|];
    assert forall k | |before| + |p| <= k < |before| + |p| + |body| :: migration[k] == body[k - |before| - |p|];
    var last := |before| + |p| + |body|;
    assert forall k | last < k < |migration| :: migration[k] == after[k - last - 1];
  }

  lemma OnlyThere(migration: string, p: string, start: nat, from: nat)
    requires |p| > 0 && p[|p| - 1] == '(' && OccursAt(migration, p, start) && from == start + |p| - 1
    requires forall k | 0 <= k < |migration| :: migration[k] == '(' <==> k == from
    ensures OnlyOccurrence(migration, p, start)
  {
    forall k | OccursAt(migration, p, k) ensures k == start {
      OccurrenceReads(migration, p, k);
      assert migration[k + |p| - 1] == '(';
    }
  }
}

/** The table-name extraction of `validate_sql_against_schema`: the text is
    lowercased and searched for the pattern
    `\b(?:from|join)\s+([a-z_][a-z0-9_]*(?:\.[a-z_][a-z0-9_]*)?)\b`,
    collecting the captured group of every match, left to right and without
    overlap, as `re.findall` does. Characters are treated as ASCII. */
module SqlScan {
  import opened Values

  /** `\w` restricted to ASCII. */
  predicate IsWordChar(c: char) {
    'a' <= c <= 'z' || 'A' <= c <= 'Z' || '0' <= c <= '9' || c == '_'
  }

  /** `\s` restricted to ASCII: tab, line feed, vertical tab, form feed,
      carriage return, the four separators 0x1C-0x1F and the space. */
  predicate IsSpace(c: char) {
    9 <= c as int <= 13 || 28 <= c as int <= 32
  }

  /** `[a-z_]` and `[a-z0-9_]`. */
  predicate IdentStart(c: char) {
    'a' <= c <= 'z' || c == '_'
  }

  predicate IdentChar(c: char) {
    IdentStart(c) || '0' <= c <= '9'
  }

  /** `str.lower` on ASCII; other characters are left as they are. */
  function LowerChar(c: char): char {
    if 'A' <= c <= 'Z' then (c as int + 32) as char else c
  }

  function Lower(s: string): string {
    seq(|s|, i requires 0 <= i < |s| => LowerChar(s[i]))
  }

  /** Lowered text has no upper-case letter, so its word characters are
      exactly the identifier characters. */
  predicate IsLowered(s: string) {
    forall k :: 0 <= k < |s| ==> !('A' <= s[k] <= 'Z')
  }

  lemma LowerIsLowered(s: string)
    ensures IsLowered(Lower(s))
    ensures Lower(Lower(s)) == Lower(s)
  {
  }

  /** Position `k` holds a word character. */
  predicate WordAt(s: string, k: int) {
    0 <= k < |s| && IsWordChar(s[k])
  }

  /** `\b` at position `p`: a word character on exactly one side. */
  predicate Boundary(s: string, p: int) {
    WordAt(s, p - 1) != WordAt(s, p)
  }

  /** `from` or `join` starts at `p`. */
  predicate KeywordAt(s: string, p: nat) {
    && p + 4 <= |s|
    && (|| (s[p] == 'f' && s[p + 1] == 'r' && s[p + 2] == 'o' && s[p + 3] == 'm')
        || (s[p] == 'j' && s[p + 1] == 'o' && s[p + 2] == 'i' && s[p + 3] == 'n'))
  }

  /** The end of the run of whitespace starting at `i` (greedy `\s*`). */
  function SkipSpaces(s: string, i: nat): (j: nat)
    requires i <= |s|
    ensures i <= j <= |s|
    ensures forall k :: i <= k < j ==> IsSpace(s[k])
    ensures j < |s| ==> !IsSpace(s[j])
    decreases |s| - i
  {
    if i < |s| && IsSpace(s[i]) then SkipSpaces(s, i + 1) else i
  }

  /** The end of the run of identifier characters starting at `i` (greedy
      `[a-z0-9_]*`). */
  function SkipIdent(s: string, i: nat): (j: nat)
    requires i <= |s|
    ensures i <= j <= |s|
    ensures forall k :: i <= k < j ==> IdentChar(s[k])
    ensures j < |s| ==> !IdentChar(s[j])
    decreases |s| - i
  {
    if i < |s| && IdentChar(s[i]) then SkipIdent(s, i + 1) else i
  }

  /** `[a-z_][a-z0-9_]*`. */
  predicate IsIdent(x: string) {
    |x| > 0 && IdentStart(x[0]) && forall k :: 0 < k < |x| ==> IdentChar(x[k])
  }

  /** The shape of the captured group: `name` or `schema.name`. */
  predicate IsTableRef(t: string) {
    IsIdent(t) || exists k | 0 < k < |t| :: t[k] == '.' && IsIdent(t[..k]) && IsIdent(t[k + 1..])
  }

  /** The captured group of a match: `s[start..end]`. */
  datatype Span = Span(start: nat, end: nat)

  /** Where the captured group that starts at `w` ends. The optional
      `.name` part is tried first; if the closing `\b` fails after it, the
      engine falls back to the name without it. */
  function CaptureEnd(s: string, w: nat): (e: Option<nat>)
    requires w < |s| && IdentStart(s[w])
    ensures e.Some? ==> w < e.value <= |s| && IsTableRef(s[w..e.value]) && Boundary(s, e.value)
  {
    var e1 := SkipIdent(s, w + 1);
    if e1 + 1 < |s| && s[e1] == '.' && IdentStart(s[e1 + 1]) && Boundary(s, SkipIdent(s, e1 + 2)) then
      var e2 := SkipIdent(s, e1 + 2);
      assert IsIdent(s[w..e1]) && IsIdent(s[e1 + 1..e2]);
      assert s[w..e2][..e1 - w] == s[w..e1] && s[w..e2][e1 - w + 1..] == s[e1 + 1..e2];
      Some(e2)
    else if Boundary(s, e1) then
      assert IsIdent(s[w..e1]);
      Some(e1)
    else None
  }

  /** The pattern tried at position `p`. The keyword needs `\b` before it and
      at least one whitespace after it; the whitespace run is taken whole,
      since giving any of it back leaves whitespace where `[a-z_]` is needed. */
  function MatchAt(s: string, p: nat): (r: Option<Span>)
    ensures r.Some? ==>
      && KeywordAt(s, p) && Boundary(s, p)
      && p + 4 < r.value.start < r.value.end <= |s|
      && (forall k :: p + 4 <= k < r.value.start ==> IsSpace(s[k]))
      && IsTableRef(s[r.value.start..r.value.end])
      && Boundary(s, r.value.end)
  {
    if !(p + 4 <= |s| && KeywordAt(s, p) && Boundary(s, p)) then None
    else
      var w := SkipSpaces(s, p + 4);
      if w == p + 4 || w == |s| || !IdentStart(s[w]) then None
      else match CaptureEnd(s, w)
        case Some(e) => Some(Span(w, e))
        case None => None
  }

  /** On lowered text a position holds a word character exactly when it
      holds an identifier character. */
  lemma LoweredWordAt(s: string, k: int)
    requires IsLowered(s)
    ensures WordAt(s, k) <==> 0 <= k < |s| && IdentChar(s[k])
  {
  }

  /** On lowered text the closing `\b` holds after any maximal run of
      identifier characters that follows one. */
  lemma LoweredBoundaryAfterIdent(s: string, i: nat)
    requires IsLowered(s)
    requires 0 < i <= |s| && IdentChar(s[i - 1])
    ensures Boundary(s, SkipIdent(s, i))
  {
    var e := SkipIdent(s, i);
    LoweredWordAt(s, e);
    LoweredWordAt(s, e - 1);
    if e > i {
      assert IdentChar(s[e - 1]);
    }
  }

  /** A keyword at a word boundary, then whitespace, then `[a-z_]`. */
  predicate Introduces(s: string, p: nat) {
    && KeywordAt(s, p) && Boundary(s, p)
    && var w := SkipSpaces(s, p + 4);
       w > p + 4 && w < |s| && IdentStart(s[w])
  }

  /** On lowered text a group that starts with `[a-z_]` always ends. */
  lemma CaptureEndLowered(s: string, w: nat)
    requires IsLowered(s)
    requires w < |s| && IdentStart(s[w])
    ensures CaptureEnd(s, w).Some?
  {
    LoweredBoundaryAfterIdent(s, w + 1);
  }

  /** On lowered text the pattern matches exactly where a keyword at a word
      boundary is followed by whitespace and then `[a-z_]`. */
  lemma MatchAtLowered(s: string, p: nat)
    requires IsLowered(s)
    ensures MatchAt(s, p).Some? <==> Introduces(s, p)
  {
    if Introduces(s, p) {
      CaptureEndLowered(s, SkipSpaces(s, p + 4));
    }
  }

  /** On lowered text the captured group is as long as it can be: no
      identifier character follows it, and a group without a dot is not
      followed by a `.name` part. */
  lemma CaptureEndMaximal(s: string, w: nat)
    requires IsLowered(s)
    requires w < |s| && IdentStart(s[w]) && CaptureEnd(s, w).Some?
    ensures var e := CaptureEnd(s, w).value;
      && (e < |s| ==> !IdentChar(s[e]))
      && ('.' !in s[w..e] ==> !(e + 1 < |s| && s[e] == '.' && IdentStart(s[e + 1])))
  {
    var e1 := SkipIdent(s, w + 1);
    if e1 + 1 < |s| && s[e1] == '.' && IdentStart(s[e1 + 1]) {
      var e2 := SkipIdent(s, e1 + 2);
      LoweredBoundaryAfterIdent(s, e1 + 2);
      assert CaptureEnd(s, w) == Some(e2);
      assert s[w..e2][e1 - w] == '.';
    }
  }

  /** The same for the whole match. */
  lemma MatchAtMaximal(s: string, p: nat)
    requires IsLowered(s)
    requires MatchAt(s, p).Some?
    ensures MatchAt(s, p).value.end < |s| ==> !IdentChar(s[MatchAt(s, p).value.end])
    ensures var m := MatchAt(s, p).value;
      '.' !in s[m.start..m.end] ==> !(m.end + 1 < |s| && s[m.end] == '.' && IdentStart(s[m.end + 1]))
  {
    CaptureEndMaximal(s, SkipSpaces(s, p + 4));
  }

  /** A maximal run of whitespace is what `SkipSpaces` skips. */
  lemma SkipSpacesOver(s: string, i: nat, j: nat)
    requires i <= j <= |s|
    requires forall k :: i <= k < j ==> IsSpace(s[k])
    requires j < |s| ==> !IsSpace(s[j])
    ensures SkipSpaces(s, i) == j
  {
  }

  /** A maximal run of identifier characters is what `SkipIdent` skips. */
  lemma SkipIdentOver(s: string, i: nat, j: nat)
    requires i <= j <= |s|
    requires forall k :: i <= k < j ==> IdentChar(s[k])
    requires j < |s| ==> !IdentChar(s[j])
    ensures SkipIdent(s, i) == j
  {
  }

  /** A plain name `s[w..e]` that no word character and no `.name` part
      continues is captured as it is. */
  lemma CapturesPlainName(s: string, w: nat, e: nat)
    requires w < e <= |s|
    requires IdentStart(s[w]) && forall k :: w < k < e ==> IdentChar(s[k])
    requires e == |s| || !IsWordChar(s[e])
    requires !(e + 1 < |s| && s[e] == '.' && IdentStart(s[e + 1]))
    ensures CaptureEnd(s, w) == Some(e)
  {
    SkipIdentOver(s, w + 1, e);
  }

  /** A qualified name `s[w..d] + "." + s[d + 1..e]` that no word character
      continues is captured whole. */
  lemma CapturesQualifiedName(s: string, w: nat, d: nat, e: nat)
    requires w < d && d + 1 < e <= |s|
    requires IdentStart(s[w]) && forall k :: w < k < d ==> IdentChar(s[k])
    requires s[d] == '.' && IdentStart(s[d + 1]) && forall k :: d + 1 < k < e ==> IdentChar(s[k])
    requires e == |s| || !IsWordChar(s[e])
    ensures CaptureEnd(s, w) == Some(e)
  {
    SkipIdentOver(s, w + 1, d);
    SkipIdentOver(s, d + 2, e);
  }

  /** The pattern matches at a keyword that does not continue a word and is
      followed by whitespace and a name `s[w..e]` that no word character
      continues and no `.name` part follows: the match captures exactly that
      name. */
  lemma MatchesPlainName(s: string, p: nat, w: nat, e: nat)
    requires p + 4 < w < e <= |s|
    requires KeywordAt(s, p) && (p == 0 || !IsWordChar(s[p - 1]))
    requires forall k :: p + 4 <= k < w ==> IsSpace(s[k])
    requires IdentStart(s[w]) && forall k :: w < k < e ==> IdentChar(s[k])
    requires e == |s| || !IsWordChar(s[e])
    requires !(e + 1 < |s| && s[e] == '.' && IdentStart(s[e + 1]))
    ensures MatchAt(s, p) == Some(Span(w, e))
  {
    SkipSpacesOver(s, p + 4, w);
    CapturesPlainName(s, w, e);
  }

  /** The same for a qualified name `s[w..d] + "." + s[d + 1..e]`. */
  lemma MatchesQualifiedName(s: string, p: nat, w: nat, d: nat, e: nat)
    requires p + 4 < w < d && d + 1 < e <= |s|
    requires KeywordAt(s, p) && (p == 0 || !IsWordChar(s[p - 1]))
    requires forall k :: p + 4 <= k < w ==> IsSpace(s[k])
    requires IdentStart(s[w]) && forall k :: w < k < d ==> IdentChar(s[k])
    requires s[d] == '.' && IdentStart(s[d + 1]) && forall k :: d + 1 < k < e ==> IdentChar(s[k])
    requires e == |s| || !IsWordChar(s[e])
    ensures MatchAt(s, p) == Some(Span(w, e))
  {
    SkipSpacesOver(s, p + 4, w);
    CapturesQualifiedName(s, w, d, e);
  }

  /** Positions without an `f` or a `j` start no match and can be skipped. */
  lemma {:induction false} FindAllSkip(s: string, i: nat, p: nat)
    requires i <= p <= |s|
    requires forall k :: i <= k < p ==> s[k] != 'f' && s[k] != 'j'
    ensures FindAll(s, i) == FindAll(s, p)
    decreases p - i
  {
    if i < p {
      FindAllSkip(s, i + 1, p);
      assert !KeywordAt(s, i);
      FindAllPass(s, i);
    }
  }

  /** `re.findall` from position `i`: at each position the pattern is tried;
      after a match the search resumes where the match ended, so matched
      text is never searched again. */
  function FindAll(s: string, i: nat): seq<string>
    requires i <= |s|
    decreases |s| - i
  {
    if i == |s| then []
    else match MatchAt(s, i)
      case Some(m) => [s[m.start..m.end]] + FindAll(s, m.end)
      case None => FindAll(s, i + 1)
  }

  /** The names the validator checks: every captured group of the lowered
      SQL text, in order of occurrence, duplicates kept. */
  function FindTables(sql: string): (r: seq<string>)
    ensures forall t | t in r :: IsTableRef(t)
  {
    FindAllNames(Lower(sql), 0);
    FindAll(Lower(sql), 0)
  }

  /** Every name found is an identifier or `schema.identifier`. */
  lemma {:induction false} FindAllNames(s: string, i: nat)
    requires i <= |s|
    ensures forall t | t in FindAll(s, i) :: IsTableRef(t)
    decreases |s| - i
  {
    if i < |s| {
      match MatchAt(s, i)
      case Some(m) => FindAllNames(s, m.end);
      case None => FindAllNames(s, i + 1);
    }
  }

  /** The pattern matches at `p` and captures `t`. */
  predicate CapturesAt(s: string, p: nat, t: string) {
    MatchAt(s, p).Some? && s[MatchAt(s, p).value.start..MatchAt(s, p).value.end] == t
  }

  /** Every extracted name is the capture of a match at or after `i`. */
  lemma {:induction false} FindAllSound(s: string, i: nat, t: string)
    requires i <= |s|
    requires t in FindAll(s, i)
    ensures exists p | i <= p < |s| :: CapturesAt(s, p, t)
    decreases |s| - i
  {
    if i < |s| {
      match MatchAt(s, i)
      case Some(m) =>
        if t != s[m.start..m.end] {
          FindAllSound(s, m.end, t);
        } else {
          assert CapturesAt(s, i, t);
        }
      case None =>
        FindAllSound(s, i + 1, t);
    }
  }

  /** A position where the pattern fails is passed over. */
  lemma FindAllPass(s: string, i: nat)
    requires i < |s| && MatchAt(s, i).None?
    ensures FindAll(s, i) == FindAll(s, i + 1)
  {
  }

  /** A match contributes its capture, and the search resumes at its end. */
  lemma FindAllTake(s: string, p: nat)
    requires p <= |s| && MatchAt(s, p).Some?
    ensures FindAll(s, p) ==
      [s[MatchAt(s, p).value.start..MatchAt(s, p).value.end]] + FindAll(s, MatchAt(s, p).value.end)
  {
  }

  /** The leftmost match comes first, and the search resumes after it. */
  lemma {:induction false} FindAllLeftmost(s: string, i: nat, p: nat)
    requires i <= p <= |s|
    requires MatchAt(s, p).Some?
    requires forall q :: i <= q < p ==> MatchAt(s, q).None?
    ensures FindAll(s, i) ==
      [s[MatchAt(s, p).value.start..MatchAt(s, p).value.end]] + FindAll(s, MatchAt(s, p).value.end)
    decreases p - i
  {
    if i < p {
      FindAllLeftmost(s, i + 1, p);
      var m := MatchAt(s, p).value;
      var rest := [s[m.start..m.end]] + FindAll(s, m.end);
      assert FindAll(s, i + 1) == rest;
      FindAllPass(s, i);
      assert FindAll(s, i) == rest;
    } else {
      FindAllTake(s, p);
    }
  }

  /** Text without a `from` or `join` yields no name. */
  lemma {:induction false} NoKeywordNoTables(s: string, i: nat)
    requires i <= |s|
    requires forall p :: i <= p < |s| ==> !KeywordAt(s, p)
    ensures FindAll(s, i) == []
    decreases |s| - i
  {
    if i < |s| {
      NoKeywordNoTables(s, i + 1);
    }
  }

  /** Each match uses at least six characters (keyword, one whitespace, one
      name character), so there are at most `(|s| - i) / 6` names. */
  lemma {:induction false} FindAllBound(s: string, i: nat)
    requires i <= |s|
    ensures 6 * |FindAll(s, i)| <= |s| - i
    decreases |s| - i
  {
    if i < |s| {
      match MatchAt(s, i)
      case Some(m) => FindAllBound(s, m.end);
      case None => FindAllBound(s, i + 1);
    }
  }

  /** The extraction ignores letter case. */
  lemma FindTablesIgnoresCase(sql: string)
    ensures FindTables(Lower(sql)) == FindTables(sql)
  {
    LowerIsLowered(sql);
  }

  lemma LowerAppend(a: string, b: string)
    ensures Lower(a + b) == Lower(a) + Lower(b)
  {
  }

  /** A keyword already used as a captured name is not searched again: in
      `from join x` the capture is `join`, and `x` is not captured. */
  lemma ConsumedKeywordIsNotRescanned()
    ensures FindTables("from join x") == ["join"]
  {
    var s := "from join x";
    assert Lower(s) == s;
    assert SkipSpaces(s, 4) == 5;
    assert SkipIdent(s, 6) == 9;
    assert MatchAt(s, 0) == Some(Span(5, 9));
    assert FindAll(s, 9) == [];
    assert s[5..9] == "join";
  }

  const JoinExample := "select * " + "from orders " + "join " + "missing_table" + " on 1=1"

  /** A slice equals a text given one character at a time. */
  lemma SliceIs(s: string, i: nat, t: string)
    requires i + |t| <= |s|
    requires forall k :: 0 <= k < |t| ==> s[i + k] == t[k]
    ensures s[i..i + |t|] == t
  {
  }

  /** The characters of `from orders ` at positions 8 to 20. */
  lemma JoinExampleFirstClause(s: string)
    requires s == JoinExample
    ensures KeywordAt(s, 9) && !IsWordChar(s[8])
    ensures IsSpace(s[13]) && IdentStart(s[14]) && forall k :: 14 < k < 20 ==> IdentChar(s[k])
    ensures s[20] == ' ' && s[14..20] == "orders"
  {
    var clause, name := "from orders ", "orders";
    assert forall k :: 9 <= k < 21 ==> s[k] == clause[k - 9];
    assert forall k :: 0 <= k < 6 ==> s[14 + k] == name[k];
    SliceIs(s, 14, name);
    assert s[8] == ' ';
  }

  lemma JoinExampleFirstMatch(s: string)
    requires s == JoinExample
    ensures MatchAt(s, 9) == Some(Span(14, 20)) && s[14..20] == "orders"
  {
    JoinExampleFirstClause(s);
    MatchesPlainName(s, 9, 14, 20);
  }

  /** An identifier placed at `w` gives its characters there. */
  lemma IdentAt(s: string, w: nat, name: string)
    requires w + |name| <= |s| && s[w..w + |name|] == name && IsIdent(name)
    ensures IdentStart(s[w]) && forall k :: w < k < w + |name| ==> IdentChar(s[k])
  {
    assert forall k :: w <= k < w + |name| ==> s[k] == name[k - w];
  }

  /** The characters of ` join ` at positions 20 to 25 and the space at 39. */
  lemma JoinExampleSecondKeyword(s: string)
    requires s == JoinExample
    ensures KeywordAt(s, 21) && !IsWordChar(s[20]) && IsSpace(s[25]) && s[39] == ' '
  {
    var keyword := "join ";
    assert forall k :: 21 <= k < 26 ==> s[k] == keyword[k - 21];
    assert s[20] == ' ' && s[39] == ' ';
  }

  /** The name `missing_table` at positions 26 to 38. */
  lemma JoinExampleSecondName(s: string)
    requires s == JoinExample
    ensures s[26..39] == "missing_table"
  {
    var name := "missing_table";
    assert forall k :: 0 <= k < 13 ==> s[26 + k] == name[k];
    SliceIs(s, 26, name);
  }

  /** The characters of ` join missing_table ` at positions 20 to 39. */
  lemma JoinExampleSecondClause(s: string)
    requires s == JoinExample
    ensures KeywordAt(s, 21) && !IsWordChar(s[20])
    ensures IsSpace(s[25]) && IdentStart(s[26]) && forall k :: 26 < k < 39 ==> IdentChar(s[k])
    ensures s[39] == ' ' && s[26..39] == "missing_table"
  {
    JoinExampleSecondKeyword(s);
    JoinExampleSecondName(s);
    var name := "missing_table";
    assert IsIdent(name);
    IdentAt(s, 26, name);
  }

  lemma JoinExampleSecondMatch(s: string)
    requires s == JoinExample
    ensures MatchAt(s, 21) == Some(Span(26, 39)) && s[26..39] == "missing_table"
  {
    JoinExampleSecondClause(s);
    MatchesPlainName(s, 21, 26, 39);
  }

  /** The text around the two clauses holds no `f` and no `j`. */
  lemma JoinExampleGaps(s: string)
    requires s == JoinExample
    ensures |s| == 46
    ensures forall k :: 0 <= k < 9 ==> s[k] != 'f' && s[k] != 'j'
    ensures s[20] == ' '
    ensures forall k :: 39 <= k < 46 ==> s[k] != 'f' && s[k] != 'j'
  {
    var head, tail := "select * ", " on 1=1";
    assert forall k :: 0 <= k < 9 ==> s[k] == head[k];
    assert forall k :: 39 <= k < 46 ==> s[k] == tail[k - 39];
  }

  /** From the end of the first clause on, only `missing_table` is found. */
  lemma JoinExampleRest(s: string)
    requires s == JoinExample
    ensures FindAll(s, 20) == ["missing_table"]
  {
    JoinExampleGaps(s);
    FindAllSkip(s, 20, 21);
    JoinExampleSecondMatch(s);
    FindAllLeftmost(s, 21, 21);
    FindAllSkip(s, 39, 46);
  }

  lemma JoinExampleScan(s: string)
    requires s == JoinExample
    ensures FindAll(s, 0) == ["orders", "missing_table"]
  {
    JoinExampleGaps(s);
    FindAllSkip(s, 0, 9);
    JoinExampleFirstMatch(s);
    FindAllLeftmost(s, 9, 9);
    JoinExampleRest(s);
  }

  lemma JoinExampleLowered()
    ensures Lower("SELECT * " + "FROM orders " + "JOIN " + "missing_table" + " ON 1=1") == JoinExample
  {
    LowerAppend("SELECT * " + "FROM orders " + "JOIN " + "missing_table", " ON 1=1");
    LowerAppend("SELECT * " + "FROM orders " + "JOIN ", "missing_table");
    LowerAppend("SELECT * " + "FROM orders ", "JOIN ");
    LowerAppend("SELECT * ", "FROM orders ");
    assert Lower("SELECT * ") == "select * ";
    assert Lower("FROM orders ") == "from orders ";
    assert Lower("JOIN ") == "join ";
    assert Lower("missing_table") == "missing_table";
    assert Lower(" ON 1=1") == " on 1=1";
  }

  /** The tables named after `FROM` and `JOIN`, whatever their case. */
  lemma JoinExampleTables()
    ensures FindTables("SELECT * " + "FROM orders " + "JOIN " + "missing_table" + " ON 1=1")
         == ["orders", "missing_table"]
  {
    JoinExampleLowered();
    JoinExampleScan(JoinExample);
  }

  const QualifiedExample := "select * " + "from " + "public" + "." + "orders" + " o"

  /** The characters of `from public.orders ` at positions 8 to 27. */
  lemma QualifiedExampleClause(s: string)
    requires s == QualifiedExample
    ensures KeywordAt(s, 9) && !IsWordChar(s[8]) && IsSpace(s[13])
    ensures IdentStart(s[14]) && forall k :: 14 < k < 20 ==> IdentChar(s[k])
    ensures s[20] == '.' && IdentStart(s[21]) && forall k :: 21 < k < 27 ==> IdentChar(s[k])
    ensures s[27] == ' ' && s[14..27] == "public.orders"
  {
    var clause, schema, name := "from ", "public", "orders";
    assert forall k :: 9 <= k < 14 ==> s[k] == clause[k - 9];
    assert forall k :: 14 <= k < 20 ==> s[k] == schema[k - 14];
    assert forall k :: 21 <= k < 27 ==> s[k] == name[k - 21];
    assert s[8] == ' ' && s[20] == '.' && s[27] == ' ';
    var whole := "public.orders";
    assert forall k :: 0 <= k < 13 ==> s[14 + k] == whole[k];
    SliceIs(s, 14, whole);
  }

  lemma QualifiedExampleMatch(s: string)
    requires s == QualifiedExample
    ensures MatchAt(s, 9) == Some(Span(14, 27))
    ensures s[14..27] == "public.orders"
  {
    QualifiedExampleClause(s);
    MatchesQualifiedName(s, 9, 14, 20, 27);
  }

  /** The text around the clause holds no `f` and no `j`. */
  lemma QualifiedExampleGaps(s: string)
    requires s == QualifiedExample
    ensures |s| == 29
    ensures forall k :: 0 <= k < 9 ==> s[k] != 'f' && s[k] != 'j'
    ensures forall k :: 27 <= k < 29 ==> s[k] != 'f' && s[k] != 'j'
  {
    var head, tail := "select * ", " o";
    assert forall k :: 0 <= k < 9 ==> s[k] == head[k];
    assert forall k :: 27 <= k < 29 ==> s[k] == tail[k - 27];
  }

  lemma QualifiedExampleScan(s: string)
    requires s == QualifiedExample
    ensures FindAll(s, 0) == ["public.orders"]
  {
    QualifiedExampleGaps(s);
    FindAllSkip(s, 0, 9);
    QualifiedExampleMatch(s);
    FindAllLeftmost(s, 9, 9);
    FindAllSkip(s, 27, 29);
  }

  lemma QualifiedExampleLowered()
    ensures Lower("SELECT * " + "FROM " + "public" + "." + "orders" + " o") == QualifiedExample
  {
    LowerAppend("SELECT * " + "FROM " + "public" + "." + "orders", " o");
    LowerAppend("SELECT * " + "FROM " + "public" + ".", "orders");
    LowerAppend("SELECT * " + "FROM " + "public", ".");
    LowerAppend("SELECT * " + "FROM ", "public");
    LowerAppend("SELECT * ", "FROM ");
    assert Lower("SELECT * ") == "select * ";
    assert Lower("FROM ") == "from ";
    assert Lower("public") == "public" && Lower(".") == "." && Lower("orders") == "orders";
    assert Lower(" o") == " o";
  }

  /** A qualified name is captured whole, and an alias after it is not. */
  lemma QualifiedExampleTables()
    ensures FindTables("SELECT * " + "FROM " + "public" + "." + "orders" + " o") == ["public.orders"]
  {
    QualifiedExampleLowered();
    QualifiedExampleScan(QualifiedExample);
  }
}

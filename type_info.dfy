/** The column type descriptor printed by `print_schema_summary`: the base type
    with every `type/` removed, followed by the semantic type in brackets when
    there is one. */
module TypeInfo {
  import opened Values
  import opened Schema

  /** `pat` occurs in `s` at index `i`. */
  predicate OccursAt(s: string, pat: string, i: int) {
    0 <= i && i + |pat| <= |s| && s[i..i + |pat|] == pat
  }

  predicate Occurs(s: string, pat: string) {
    exists i | 0 <= i <= |s| :: OccursAt(s, pat, i)
  }

  /** Python's `s.replace(pat, '')` for a non-empty `pat`: occurrences are
      found left to right and do not overlap; the text between them is kept. */
  function RemoveAll(s: string, pat: string): (r: string)
    requires |pat| > 0
    ensures |r| <= |s|
    decreases |s|
  {
    if |s| < |pat| then s
    else if s[..|pat|] == pat then RemoveAll(s[|pat|..], pat)
    else [s[0]] + RemoveAll(s[1..], pat)
  }

  const TypePrefix := "type/"

  /** `.replace('type/', '')`. */
  function StripType(s: string): string {
    RemoveAll(s, TypePrefix)
  }

  /** Text without an occurrence is left as it is. */
  lemma {:induction false} RemoveAllNoOccurrence(s: string, pat: string)
    requires |pat| > 0
    requires !Occurs(s, pat)
    ensures RemoveAll(s, pat) == s
    decreases |s|
  {
    if |s| >= |pat| {
      assert !OccursAt(s, pat, 0);
      forall i | OccursAt(s[1..], pat, i) ensures false {
        assert s[1..][i..i + |pat|] == s[i + 1..i + 1 + |pat|];
        assert OccursAt(s, pat, i + 1);
      }
      RemoveAllNoOccurrence(s[1..], pat);
    }
  }

  /** Text without a `/` holds no `type/`, so Metabase's bare type names
      (`Integer`, `PK`, ...) pass through unchanged. */
  lemma NoSlashNoTypePrefix(s: string)
    requires '/' !in s
    ensures !Occurs(s, TypePrefix)
  {
    forall i | 0 <= i <= |s| ensures !OccursAt(s, TypePrefix, i) {
      if i + 5 <= |s| {
        assert s[i + 4] in s;
        assert s[i..i + 5][4] != TypePrefix[4];
      }
    }
  }

  /** A leading occurrence is dropped and the scan goes on after it. */
  lemma RemoveAllLeading(pat: string, s: string)
    requires |pat| > 0
    ensures RemoveAll(pat + s, pat) == RemoveAll(s, pat)
  {
    assert (pat + s)[..|pat|] == pat;
    assert (pat + s)[|pat|..] == s;
  }

  /** Where no occurrence starts, the first character is kept. */
  lemma RemoveAllKeepsHead(s: string, pat: string)
    requires |pat| > 0 && |s| > 0 && !OccursAt(s, pat, 0)
    ensures RemoveAll(s, pat) == [s[0]] + RemoveAll(s[1..], pat)
  {
  }

  /** No occurrence in the first |x| positions of `x + t` means none in the
      first |x| - 1 positions of `x[1..] + t`. */
  lemma NoOccurrenceShifts(x: string, t: string, pat: string)
    requires |x| > 0
    requires forall i :: 0 <= i < |x| ==> !OccursAt(x + t, pat, i)
    ensures forall i :: 0 <= i < |x| - 1 ==> !OccursAt(x[1..] + t, pat, i)
  {
    var s := x + t;
    assert s[1..] == x[1..] + t;
    forall i | 0 <= i < |x| - 1 ensures !OccursAt(x[1..] + t, pat, i) {
      assert !OccursAt(s, pat, i + 1);
      if i + |pat| <= |s[1..]| {
        assert s[i + 1..i + 1 + |pat|] == s[1..][i..i + |pat|];
      }
    }
  }

  /** The first occurrence is removed wherever it stands: the text before it
      is kept as it is and the scan goes on after it. */
  lemma {:induction false} RemoveAllFirst(x: string, pat: string, y: string)
    requires |pat| > 0
    requires forall i :: 0 <= i < |x| ==> !OccursAt(x + pat + y, pat, i)
    ensures RemoveAll(x + pat + y, pat) == x + RemoveAll(y, pat)
    decreases |x|
  {
    if x == [] {
      assert x + pat + y == pat + y;
      RemoveAllLeading(pat, y);
    } else {
      var t := pat + y;
      assert x + pat + y == x + t;
      assert (x + t)[0] == x[0] && (x + t)[1..] == x[1..] + t;
      RemoveAllKeepsHead(x + t, pat);
      NoOccurrenceShifts(x, t, pat);
      assert x[1..] + t == x[1..] + pat + y;
      RemoveAllFirst(x[1..], pat, y);
      assert [x[0]] + x[1..] == x;
    }
  }

  /** Every character of the result comes from the input. */
  lemma {:induction false} RemoveAllKeepsCharacters(s: string, pat: string, c: char)
    requires |pat| > 0
    requires c in RemoveAll(s, pat)
    ensures c in s
    decreases |s|
  {
    if |s| >= |pat| {
      if s[..|pat|] == pat {
        RemoveAllKeepsCharacters(s[|pat|..], pat, c);
        assert c in s[|pat|..];
      } else if c != s[0] {
        RemoveAllKeepsCharacters(s[1..], pat, c);
        assert c in s[1..];
      }
    }
  }

  /** The last three steps of the pass over `typetype//`. */
  lemma StripTypeTail()
    ensures RemoveAll("petype//", TypePrefix) == "pe/"
  {
    assert RemoveAll("/", TypePrefix) == "/";
    assert "type//"[..5] == TypePrefix && "type//"[5..] == "/";
    assert RemoveAll("type//", TypePrefix) == "/";
    assert "etype//"[..5][0] != TypePrefix[0] && "etype//"[1..] == "type//";
    assert RemoveAll("etype//", TypePrefix) == "e/";
    assert "petype//"[..5][0] != TypePrefix[0] && "petype//"[1..] == "etype//";
  }

  /** One pass does not remove occurrences that the removal itself creates:
      the descriptor can still contain `type/`. */
  lemma StripTypeIsSinglePass()
    ensures StripType("typetype//") == "type/"
    ensures Occurs(StripType("typetype//"), TypePrefix)
  {
    StripTypeTail();
    assert "ypetype//"[..5][0] != TypePrefix[0] && "ypetype//"[1..] == "petype//";
    assert RemoveAll("ypetype//", TypePrefix) == "ype/";
    assert "typetype//"[..5][4] != TypePrefix[4] && "typetype//"[1..] == "ypetype//";
    assert OccursAt("type/", TypePrefix, 0);
  }

  /** The suffix ` [semantic]`, empty when there is no semantic type. */
  function SemanticSuffix(semantic: string): string {
    if semantic != "" then " [" + semantic + "]" else ""
  }

  /** Lines 187-193 as written: `field.get('base_type', 'unknown')` and
      `field.get('semantic_type', '')` are `None` for a key that holds `null`,
      and `.replace` on `None` raises `AttributeError`. */
  function TypeDescriptorAsWritten(f: Field): (r: Outcome<string>)
    ensures r.Raised? <==> f.baseType.Null? || f.semanticType.Null?
  {
    match (GetOr(f.baseType, "unknown"), GetOr(f.semanticType, ""))
    case (Some(base), Some(semantic)) =>
      Returned(StripType(base) + SemanticSuffix(StripType(semantic)))
    case _ => Raised
  }

  /** The descriptor with a `null` type read like a missing one, as the
      defaults `'unknown'` and `''` intend. */
  function TypeDescriptor(f: Field): (r: string)
    ensures !f.baseType.Null? && !f.semanticType.Null? ==> TypeDescriptorAsWritten(f) == Returned(r)
  {
    var base := if f.baseType.Has? then f.baseType.value else "unknown";
    var semantic := if f.semanticType.Has? then f.semanticType.value else "";
    StripType(base) + SemanticSuffix(StripType(semantic))
  }

  /** A column whose semantic type is `null`, which is how Metabase reports a
      column without one, makes the summary raise. */
  lemma NullSemanticTypeRaises()
    ensures TypeDescriptorAsWritten(Field(Has(1), Has("id"), Has("ID"), Has("type/Integer"), Null, Null)).Raised?
    ensures TypeDescriptor(Field(Has(1), Has("id"), Has("ID"), Has("type/Integer"), Null, Null)) == "Integer"
  {
    RemoveAllLeading(TypePrefix, "Integer");
    NoSlashNoTypePrefix("Integer");
    RemoveAllNoOccurrence("Integer", TypePrefix);
  }

  /** A key holding `type/` + x, or missing with default x, strips to x. */
  lemma StripSlot(slot: Slot<string>, default: string, x: string)
    requires !Occurs(x, TypePrefix)
    requires slot == Has(TypePrefix + x) || (slot.Absent? && x == default)
    ensures StripType(if slot.Has? then slot.value else default) == x
  {
    RemoveAllNoOccurrence(x, TypePrefix);
    if slot.Has? {
      RemoveAllLeading(TypePrefix, x);
    }
  }

  /** For Metabase's type names `type/B` and `type/S` (with `B`, `S` free of
      `type/`), the descriptor is `B [S]`, or `B` alone when `S` is empty;
      without a base type it starts with `unknown`. */
  lemma {:induction false} DescriptorOfTypeNames(f: Field, b: string, c: string)
    requires !Occurs(b, TypePrefix) && !Occurs(c, TypePrefix)
    requires f.baseType == Has(TypePrefix + b) || (f.baseType.Absent? && b == "unknown")
    requires f.semanticType == Has(TypePrefix + c) || (f.semanticType.Absent? && c == "")
    ensures TypeDescriptor(f) == if c == "" then b else b + " [" + c + "]"
  {
    StripSlot(f.baseType, "unknown", b);
    StripSlot(f.semanticType, "", c);
  }
}

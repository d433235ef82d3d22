/**
 * Keyword-dictionary matching: the pattern is a list of entries separated by
 * ',' or ';'; each entry is trimmed and lower-cased, empty ones are skipped,
 * and the data matches when its lower-cased form contains some entry as a
 * substring (not as a whole word).
 */
module DictionaryMatcher {
  import opened Wrappers
  import opened Strings

  predicate IsSeparator(c: char) {
    c == ',' || c == ';'
  }

  /** The pieces between separators, every one of them kept, empty or not. */
  function SplitAll(s: string): (r: seq<string>)
    ensures |r| >= 1
  {
    if s == [] then [[]]
    else
      var rest := SplitAll(s[1..]);
      if IsSeparator(s[0]) then [[]] + rest else [[s[0]] + rest[0]] + rest[1..]
  }

  function DropTrailingEmpty(parts: seq<string>): (r: seq<string>)
    ensures |r| <= |parts| && r == parts[..|r|]
  {
    if parts != [] && parts[|parts| - 1] == [] then DropTrailingEmpty(parts[..|parts| - 1]) else parts
  }

  /**
   * `pattern.split("[,;]")`: a string without separators is its own single
   * piece; otherwise the pieces between separators, trailing empty pieces
   * dropped.
   */
  function Split(s: string): seq<string> {
    if forall k :: 0 <= k < |s| ==> !IsSeparator(s[k]) then [s] else DropTrailingEmpty(SplitAll(s))
  }

  /** Every piece is made of characters of `s` other than separators. */
  lemma {:induction false} SplitAllChars(s: string)
    ensures forall e, k :: e in SplitAll(s) && 0 <= k < |e| ==> e[k] in s && !IsSeparator(e[k])
  {
    if s != [] {
      SplitAllChars(s[1..]);
      var rest := SplitAll(s[1..]);
      if !IsSeparator(s[0]) {
        forall k | 0 <= k < |[s[0]] + rest[0]|
          ensures ([s[0]] + rest[0])[k] in s
        {
          if k > 0 {
            assert ([s[0]] + rest[0])[k] == rest[0][k - 1];
          }
        }
      }
    }
  }

  /** An entry as the matcher compares it: trimmed, then lower-cased. */
  function Keyword(entry: string): string {
    ToLower(Trim(entry))
  }

  /** The entry is not blank and occurs in the already lower-cased data. */
  predicate EntryHits(entry: string, lowerData: string) {
    Keyword(entry) != [] && Contains(lowerData, Keyword(entry))
  }

  /** Some entry hits the already lower-cased data. */
  predicate AnyEntryHits(entries: seq<string>, lowerData: string) {
    exists i :: 0 <= i < |entries| && EntryHits(entries[i], lowerData)
  }

  /** The reference definition: some entry of the pattern hits the data. */
  predicate DictionaryHit(data: Option<string>, pattern: Option<string>) {
    data.Some? && pattern.Some? && AnyEntryHits(Split(pattern.value), ToLower(data.value))
  }

  /**
   * `matches(data, pattern)`: false for a null argument; otherwise walks the
   * entries, skipping blank ones and returning at the first contained one.
   */
  method Matches(data: Option<string>, pattern: Option<string>) returns (r: bool)
    ensures r == DictionaryHit(data, pattern)
  {
    if data.None? || pattern.None? {
      return false;
    }
    var entries := Split(pattern.value);
    var lower := ToLower(data.value);
    for i := 0 to |entries|
      invariant forall k :: 0 <= k < i ==> !EntryHits(entries[k], lower)
    {
      var trimmed := ToLower(Trim(entries[i]));
      if trimmed == [] {
        continue;
      }
      if Contains(lower, trimmed) {
        assert EntryHits(entries[i], lower);
        return true;
      }
    }
    assert forall e :: e in entries ==> !EntryHits(e, lower);
    return false;
  }

  /** Empty data matches no pattern. */
  lemma EmptyDataNeverMatches(pattern: Option<string>)
    ensures !DictionaryHit(Some([]), pattern)
  {
    if pattern.Some? {
      forall e | e in Split(pattern.value) && Keyword(e) != []
        ensures !Contains(ToLower([]), Keyword(e))
      {
        if Contains(ToLower([]), Keyword(e)) {
          ContainsInEmpty(Keyword(e));
        }
      }
    }
  }

  /** A pattern made only of separators and blanks never matches. */
  lemma BlankPatternNeverMatches(data: Option<string>, pattern: string)
    requires forall k :: 0 <= k < |pattern| ==> IsSeparator(pattern[k]) || IsTrimmable(pattern[k])
    ensures !DictionaryHit(data, Some(pattern))
  {
    SplitAllChars(pattern);
    forall e | e in Split(pattern)
      ensures Keyword(e) == []
    {
      if e != pattern {
        var parts := SplitAll(pattern);
        assert e in parts[..|DropTrailingEmpty(parts)|];
      }
      TrimBlank(e);
    }
  }

  /** A pattern without separators is a single entry. */
  lemma SplitSingle(s: string)
    requires forall k :: 0 <= k < |s| ==> !IsSeparator(s[k])
    ensures Split(s) == [s]
  {
  }

  /** Containment is by substring: the entry "cat" matches "this is a category". */
  lemma SubstringNotWord()
    ensures DictionaryHit(Some("this is a category"), Some("cat"))
  {
    var data := "this is a category";
    SplitSingle("cat");
    CatKeyword();
    LowerCategory();
    OccursCat();
    assert EntryHits(Split("cat")[0], ToLower(data));
  }

  lemma CatKeyword()
    ensures Keyword("cat") == "cat"
  {
    LowerCaseUnchanged("cat");
    TrimKeepsInterior("cat");
  }

  lemma LowerCategory()
    ensures ToLower("this is a category") == "this is a category"
  {
    LowerCaseUnchanged("this is a category");
  }

  lemma OccursCat()
    ensures OccursAt("this is a category", "cat", 10)
  {
    assert "this is a category"[10..13] == "cat";
  }

  /**
   * Only the ends of an entry are trimmed: " credit card " matches
   * "my credit card" but not "creditcard".
   */
  lemma InteriorBlanksKept()
    ensures DictionaryHit(Some("my credit card"), Some(" credit card "))
    ensures !DictionaryHit(Some("creditcard"), Some(" credit card "))
  {
    CreditCardEntry();
    CreditCardHit();
    SingleEntryHit("my credit card", " credit card ");
    NoRoomForCreditCard();
    SingleEntryHit("creditcard", " credit card ");
  }

  /** A pattern without separators is one entry, which decides the outcome alone. */
  lemma SingleEntryHit(data: string, entry: string)
    requires Split(entry) == [entry]
    ensures DictionaryHit(Some(data), Some(entry)) == EntryHits(entry, ToLower(data))
  {
    assert [entry][0] == entry;
  }

  lemma CreditCardEntry()
    ensures Split(" credit card ") == [" credit card "]
  {
    var entry := " credit card ";
    assert forall k :: 0 <= k < |entry| ==> !IsSeparator(entry[k]);
    SplitSingle(entry);
  }

  lemma CreditCardHit()
    ensures EntryHits(" credit card ", ToLower("my credit card"))
  {
    CreditCardKeyword();
    LowerMyCreditCard();
    OccursCreditCard();
  }

  lemma NoRoomForCreditCard()
    ensures !EntryHits(" credit card ", ToLower("creditcard"))
  {
    var lower := ToLower("creditcard");
    CreditCardKeyword();
    assert |lower| < |Keyword(" credit card ")|;
    assert !Contains(lower, Keyword(" credit card "));
  }

  lemma CreditCardKeyword()
    ensures Keyword(" credit card ") == "credit card"
  {
    var keyword := "credit card";
    LowerCaseUnchanged(keyword);
    TrimCreditCard();
  }

  lemma TrimCreditCard()
    ensures Trim(" credit card ") == "credit card"
  {
    var entry := " credit card ";
    var keyword := "credit card";
    assert entry[1..] == keyword + " ";
    assert TrimStart(entry) == TrimStart(keyword + " ");
    assert TrimStart(keyword + " ") == keyword + " ";
    assert (keyword + " ")[..|keyword|] == keyword;
    assert TrimEnd(keyword + " ") == TrimEnd(keyword);
    TrimKeepsInterior(keyword);
  }

  lemma LowerMyCreditCard()
    ensures ToLower("my credit card") == "my credit card"
  {
    LowerCaseUnchanged("my credit card");
  }

  lemma OccursCreditCard()
    ensures OccursAt("my credit card", "credit card", 3)
  {
    assert "my credit card"[3..14] == "credit card";
  }

  /** Lower-casing the data does not change the outcome. */
  lemma DataCaseIgnored(data: string, pattern: Option<string>)
    ensures DictionaryHit(Some(data), pattern) == DictionaryHit(Some(ToLower(data)), pattern)
  {
    ToLowerIdempotent(data);
  }

  function LowerAll(parts: seq<string>): (r: seq<string>)
    ensures |r| == |parts| && forall i :: 0 <= i < |parts| ==> r[i] == ToLower(parts[i])
  {
    seq(|parts|, i requires 0 <= i < |parts| => ToLower(parts[i]))
  }

  lemma {:induction false} SplitAllToLower(s: string)
    ensures SplitAll(ToLower(s)) == LowerAll(SplitAll(s))
  {
    if s != [] {
      assert ToLower(s)[1..] == ToLower(s[1..]);
      SplitAllToLower(s[1..]);
      var rest := SplitAll(s[1..]);
      if !IsSeparator(s[0]) {
        assert ToLower([s[0]] + rest[0]) == [LowerChar(s[0])] + ToLower(rest[0]);
      }
    }
  }

  lemma {:induction false} DropTrailingEmptyLower(parts: seq<string>)
    ensures DropTrailingEmpty(LowerAll(parts)) == LowerAll(DropTrailingEmpty(parts))
  {
    if parts != [] {
      var n := |parts| - 1;
      assert LowerAll(parts)[..n] == LowerAll(parts[..n]);
      assert (ToLower(parts[n]) == []) == (parts[n] == []);
      DropTrailingEmptyLower(parts[..n]);
    }
  }

  lemma SplitToLower(s: string)
    ensures Split(ToLower(s)) == LowerAll(Split(s))
  {
    var lower := ToLower(s);
    assert forall k :: 0 <= k < |s| ==> IsSeparator(lower[k]) == IsSeparator(s[k]);
    if exists k :: 0 <= k < |s| && IsSeparator(s[k]) {
      SplitAllToLower(s);
      DropTrailingEmptyLower(SplitAll(s));
    }
  }

  /** Lower-casing an entry does not change its keyword. */
  lemma KeywordOfLower(entry: string)
    ensures Keyword(ToLower(entry)) == Keyword(entry)
  {
    TrimToLower(entry);
    ToLowerIdempotent(Trim(entry));
  }

  lemma AnyEntryHitsLower(entries: seq<string>, lowerData: string)
    ensures AnyEntryHits(LowerAll(entries), lowerData) == AnyEntryHits(entries, lowerData)
  {
    var lowered := LowerAll(entries);
    if AnyEntryHits(entries, lowerData) {
      var i :| 0 <= i < |entries| && EntryHits(entries[i], lowerData);
      KeywordOfLower(entries[i]);
      assert EntryHits(lowered[i], lowerData);
    }
    if AnyEntryHits(lowered, lowerData) {
      var i :| 0 <= i < |lowered| && EntryHits(lowered[i], lowerData);
      KeywordOfLower(entries[i]);
      assert EntryHits(entries[i], lowerData);
    }
  }

  /** Lower-casing the pattern does not change the outcome. */
  lemma PatternCaseIgnored(data: Option<string>, pattern: string)
    ensures DictionaryHit(data, Some(pattern)) == DictionaryHit(data, Some(ToLower(pattern)))
  {
    SplitToLower(pattern);
    if data.Some? {
      AnyEntryHitsLower(Split(pattern), ToLower(data.value));
    }
  }

  /** Two inputs that differ only in letter case get the same answer. */
  lemma CaseInsensitive(d1: string, d2: string, p1: string, p2: string)
    requires ToLower(d1) == ToLower(d2) && ToLower(p1) == ToLower(p2)
    ensures DictionaryHit(Some(d1), Some(p1)) == DictionaryHit(Some(d2), Some(p2))
  {
    DataCaseIgnored(d1, Some(p1));
    DataCaseIgnored(d2, Some(p1));
    PatternCaseIgnored(Some(d2), p1);
    PatternCaseIgnored(Some(d2), p2);
  }
}

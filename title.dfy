/** The title of a passenger name: the leftmost match of the pattern
    `' ([A-Za-z]+)\.'` (str.extract keeps the letters), then the fixed remapping
    into five groups with "Rare" as the fallback (dpre.py). */
module Titles {
  import opened Wrappers

  /** The ASCII letters of the character class [A-Za-z]. */
  predicate IsLetter(ch: char) {
    'A' <= ch <= 'Z' || 'a' <= ch <= 'z'
  }

  /** The pattern matches s from position i to the '.' at position j: a space at i,
      one or more letters strictly between i and j, and a dot at j. */
  ghost predicate MatchAt(s: string, i: int, j: int) {
    && 0 <= i && i + 1 < j < |s|
    && s[i] == ' '
    && (forall k :: i < k < j ==> IsLetter(s[k]))
    && s[j] == '.'
  }

  /** The end of the run of letters that starts at k. */
  function RunEnd(s: string, k: nat): (j: nat)
    requires k <= |s|
    ensures k <= j <= |s|
    ensures forall m :: k <= m < j ==> IsLetter(s[m])
    ensures j < |s| ==> !IsLetter(s[j])
    decreases |s| - k
  {
    if k < |s| && IsLetter(s[k]) then RunEnd(s, k + 1) else k
  }

  /** The letters the pattern captures when its match starts at position i. The
      greedy letter run cannot stop before a letter, so a match at i is unique. */
  function TitleAt(s: string, i: nat): (r: Option<string>)
    requires i < |s|
    ensures r.Some? <==> exists j :: MatchAt(s, i, j)
    ensures forall j :: MatchAt(s, i, j) ==> r == Some(s[i + 1..j])
  {
    if s[i] == ' ' && i + 1 <= |s| then
      var j := RunEnd(s, i + 1);
      assert forall j' :: MatchAt(s, i, j') ==> j' == j;
      if i + 1 < j < |s| && s[j] == '.' then
        assert MatchAt(s, i, j);
        Some(s[i + 1..j])
      else None
    else None
  }

  /** The captured letters of the first match at or after position i. */
  function FirstTitle(s: string, i: nat): (r: Option<string>)
    requires i <= |s|
    ensures r.Some? ==> exists k :: i <= k < |s| && TitleAt(s, k) == r
                                    && forall m :: i <= m < k ==> TitleAt(s, m).None?
    ensures r.None? ==> forall k :: i <= k < |s| ==> TitleAt(s, k).None?
    decreases |s| - i
  {
    if i == |s| then None
    else if TitleAt(s, i).Some? then TitleAt(s, i)
    else FirstTitle(s, i + 1)
  }

  /** `str.extract(' ([A-Za-z]+)\.')` on one name: None (NaN) when the pattern
      does not occur; otherwise the letters of its leftmost occurrence, which form
      a maximal run of letters preceded by a space and followed by a dot. */
  function ExtractTitle(s: string): (r: Option<string>)
    ensures r.None? <==> forall i, j :: !MatchAt(s, i, j)
    ensures r.Some? ==> exists i, j :: && MatchAt(s, i, j) && r.value == s[i + 1..j]
                                       && forall k, l :: 0 <= k < i ==> !MatchAt(s, k, l)
  {
    FirstTitleIsLeftmost(s);
    FirstTitle(s, 0)
  }

  lemma FirstTitleIsLeftmost(s: string)
    ensures FirstTitle(s, 0).None? <==> forall i, j :: !MatchAt(s, i, j)
    ensures FirstTitle(s, 0).Some? ==>
      exists i, j :: && MatchAt(s, i, j) && FirstTitle(s, 0).value == s[i + 1..j]
                     && forall k, l :: 0 <= k < i ==> !MatchAt(s, k, l)
  {
    var r := FirstTitle(s, 0);
    if r.Some? {
      var k :| 0 <= k < |s| && TitleAt(s, k) == r && forall m :: 0 <= m < k ==> TitleAt(s, m).None?;
      var j :| MatchAt(s, k, j);
      forall k', l | 0 <= k' < k ensures !MatchAt(s, k', l) {
        assert MatchAt(s, k', l) ==> TitleAt(s, k').Some?;
      }
    } else {
      forall i, j ensures !MatchAt(s, i, j) {
        assert MatchAt(s, i, j) ==> TitleAt(s, i).Some?;
      }
    }
  }

  /** A captured title is a non-empty run of letters. */
  lemma ExtractedTitleIsWord(s: string)
    requires ExtractTitle(s).Some?
    ensures |ExtractTitle(s).value| > 0
    ensures forall k :: 0 <= k < |ExtractTitle(s).value| ==> IsLetter(ExtractTitle(s).value[k])
  {
    var i, j :| MatchAt(s, i, j) && ExtractTitle(s).value == s[i + 1..j];
    var w := s[i + 1..j];
    forall k | 0 <= k < |w| ensures IsLetter(w[k]) {
      assert w[k] == s[i + 1 + k];
    }
  }

  /** The five groups every title is mapped into. */
  const Groups: set<string> := {"Mr", "Miss", "Mrs", "Master", "Rare"}

  /** The 18-entry title table. */
  const TitleMapping: map<string, string> := map[
    "Mr" := "Mr", "Miss" := "Miss", "Mrs" := "Mrs", "Master" := "Master",
    "Dr" := "Rare", "Rev" := "Rare", "Col" := "Rare", "Major" := "Rare",
    "Mlle" := "Miss", "Countess" := "Rare", "Ms" := "Miss", "Lady" := "Rare",
    "Jonkheer" := "Rare", "Don" := "Rare", "Dona" := "Rare", "Mme" := "Mrs",
    "Capt" := "Rare", "Sir" := "Rare"]

  /** `title_mapping.get(x, 'Rare')`: a missing title and any title outside the
      table become "Rare". The result is always one of the five groups. */
  function MapTitle(t: Option<string>): (r: string)
    ensures r in Groups
    ensures t.None? || t.value !in TitleMapping ==> r == "Rare"
  {
    if t.Some? && t.value in TitleMapping then
      assert TitleMapping.Values <= Groups;
      assert TitleMapping[t.value] in TitleMapping.Values;
      TitleMapping[t.value]
    else "Rare"
  }

  /** Every group name is mapped onto itself, so remapping is idempotent. */
  lemma MapTitleIdempotent(t: Option<string>)
    ensures MapTitle(Some(MapTitle(t))) == MapTitle(t)
  {
    var g := MapTitle(t);
    assert g in Groups;
    assert g == "Rare" ==> g !in TitleMapping;
  }

  /** The remappings that are not identities, for example Mlle, Ms and Mme. */
  lemma MapTitleExamples()
    ensures MapTitle(Some("Dr")) == "Rare"
    ensures MapTitle(Some("Mlle")) == "Miss"
    ensures MapTitle(Some("Ms")) == "Miss"
    ensures MapTitle(Some("Mme")) == "Mrs"
    ensures MapTitle(Some("Countess")) == "Rare"
    ensures MapTitle(None) == "Rare"
    ensures MapTitle(Some("Xyz")) == "Rare"
  {
  }
}

/** The order of statuses. */
module Statuses {
  import opened Options

  const STATUS_OK := "OK"
  const STATUS_WARNING := "Warning"
  const STATUS_CRITICAL := "Critical"

  function LowerChar(c: char): char {
    if 'A' <= c <= 'Z' then c - 'A' + 'a' else c
  }

  function ToLower(s: string): string {
    seq(|s|, i requires 0 <= i < |s| => LowerChar(s[i]))
  }

  /** The priority of a status in any letter case; unknown words have none. */
  function Rank(status: string): (r: Option<nat>)
    ensures r.Some? ==> r.value <= 2
  {
    var s := ToLower(status);
    if s == "ok" then Some(0)
    else if s == "warning" then Some(1)
    else if s == "critical" then Some(2)
    else None
  }

  /** The canonical spelling. */
  function Spelling(rank: nat): string {
    if rank == 0 then STATUS_OK else if rank == 1 then STATUS_WARNING else STATUS_CRITICAL
  }

  /** `getHigherStatus`; `None` stands for the exception about an unknown status. */
  function HigherStatus(left: string, right: string): Option<string> {
    var l, r := Rank(left), Rank(right);
    if l.None? || r.None? then None
    else Some(if l.value >= r.value then Spelling(l.value) else Spelling(r.value))
  }

  lemma SpellingHasRank(rank: nat)
    requires rank <= 2
    ensures Rank(Spelling(rank)) == Some(rank)
  {
    assert ToLower(STATUS_OK) == "ok";
    assert ToLower(STATUS_WARNING) == "warning";
    assert ToLower(STATUS_CRITICAL) == "critical";
  }

  /** The result is the least upper bound, and exists exactly for known statuses. */
  lemma HigherIsJoin(left: string, right: string)
    ensures HigherStatus(left, right).Some? <==> Rank(left).Some? && Rank(right).Some?
    ensures HigherStatus(left, right).Some? ==>
      && Rank(HigherStatus(left, right).value).Some?
      && Rank(HigherStatus(left, right).value).value
         == (if Rank(left).value >= Rank(right).value then Rank(left).value else Rank(right).value)
      && HigherStatus(left, right).value in {STATUS_OK, STATUS_WARNING, STATUS_CRITICAL}
  {
    SpellingHasRank(0);
    SpellingHasRank(1);
    SpellingHasRank(2);
  }

  // In words

  /** `text` is the lower-case word `word`, in any letter case. */
  ghost predicate Spells(text: string, word: string) {
    |text| == |word| && forall i | 0 <= i < |word| :: text[i] == word[i] || text[i] as int + 32 == word[i] as int
  }

  ghost predicate IsKnown(text: string) {
    Spells(text, "ok") || Spells(text, "warning") || Spells(text, "critical")
  }

  lemma SpellsIsLowered(text: string, word: string)
    requires forall i | 0 <= i < |word| :: 'a' <= word[i] <= 'z'
    ensures Spells(text, word) <==> ToLower(text) == word
  {
    if ToLower(text) == word {
      forall i | 0 <= i < |word|
        ensures text[i] == word[i] || text[i] as int + 32 == word[i] as int
      {
        assert ToLower(text)[i] == LowerChar(text[i]);
      }
    }
  }

  lemma RankInWords(text: string)
    ensures Rank(text).Some? <==> IsKnown(text)
    ensures Spells(text, "ok") <==> Rank(text) == Some(0)
    ensures Spells(text, "warning") <==> Rank(text) == Some(1)
    ensures Spells(text, "critical") <==> Rank(text) == Some(2)
  {
    SpellsIsLowered(text, "ok");
    SpellsIsLowered(text, "warning");
    SpellsIsLowered(text, "critical");
  }

  /** A critical status outranks everything, a warning all but that; both words have to be known. */
  lemma HigherInWords(left: string, right: string)
    ensures HigherStatus(left, right).Some? <==> IsKnown(left) && IsKnown(right)
    ensures HigherStatus(left, right) == Some("Critical") <==>
      IsKnown(left) && IsKnown(right) && (Spells(left, "critical") || Spells(right, "critical"))
    ensures HigherStatus(left, right) == Some("Warning") <==>
      && IsKnown(left) && IsKnown(right) && !Spells(left, "critical") && !Spells(right, "critical")
      && (Spells(left, "warning") || Spells(right, "warning"))
    ensures HigherStatus(left, right) == Some("OK") <==> Spells(left, "ok") && Spells(right, "ok")
  {
    RankInWords(left);
    RankInWords(right);
    assert STATUS_OK != STATUS_WARNING && STATUS_OK != STATUS_CRITICAL && STATUS_WARNING != STATUS_CRITICAL;
  }

  /** A semilattice with `OK` at the bottom, up to letter case on the way in. */
  lemma HigherIsSemilattice(a: string, b: string, c: string)
    requires Rank(a).Some? && Rank(b).Some? && Rank(c).Some?
    ensures HigherStatus(a, b) == HigherStatus(b, a)
    ensures HigherStatus(HigherStatus(a, b).value, c) == HigherStatus(a, HigherStatus(b, c).value)
    ensures HigherStatus(a, a) == HigherStatus(a, STATUS_OK) == Some(Spelling(Rank(a).value))
  {
    SpellingHasRank(0);
    SpellingHasRank(1);
    SpellingHasRank(2);
  }
}

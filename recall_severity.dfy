/**
 * Severity of an FDA enforcement report, as `get_severity` in backend/main.py
 * computes it from the report's classification: a case-insensitive substring
 * test whose first branch ("class i" or "serious") is checked before the second
 * ("class ii" or "temporary").
 */
module RecallSeverity {
  import opened Text

  /** `get_severity(reason)`: "low" for the empty string, otherwise the first matching branch. */
  function GetSeverity(reason: string): (r: string)
    ensures r == "low" || r == "medium" || r == "high"
    ensures reason == [] ==> r == "low"
  {
    if reason == [] then "low"
    else
      var lowered := Lower(reason);
      if Contains(lowered, "class i") || Contains(lowered, "serious") then "high"
      else if Contains(lowered, "class ii") || Contains(lowered, "temporary") then "medium"
      else "low"
  }

  /** Any text that contains "class ii" contains "class i". */
  lemma ClassTwoContainsClassOne(text: string)
    requires Contains(text, "class ii")
    ensures Contains(text, "class i")
  {
    assert "class ii" == "class i" + "i";
    ContainsPrefixOf(text, "class i", "i");
  }

  /** The severity depends on the letters only up to case. */
  lemma GetSeverityIgnoresCase(reason: string)
    ensures GetSeverity(Lower(reason)) == GetSeverity(reason)
  {
    LowerIdempotent(reason);
  }

  /** "high" exactly when the lower-cased text contains "class i" or "serious". */
  lemma GetSeverityHigh(reason: string)
    ensures GetSeverity(reason) == "high"
            <==> Contains(Lower(reason), "class i") || Contains(Lower(reason), "serious")
  {
  }

  /**
   * A report whose classification mentions "class ii" (so also "Class III") is
   * "high": the "class ii" test of the second branch never decides the result.
   */
  lemma ClassTwoIsHigh(reason: string)
    requires Contains(Lower(reason), "class ii")
    ensures GetSeverity(reason) == "high"
  {
    ClassTwoContainsClassOne(Lower(reason));
    GetSeverityHigh(reason);
  }

  /**
   * "medium" exactly when the lower-cased text contains "class ii" or "temporary"
   * but neither "class i" nor "serious"; and because "class ii" always brings
   * "class i" with it, exactly when "temporary" is the only match.
   */
  lemma GetSeverityMedium(reason: string)
    ensures var l := Lower(reason);
            GetSeverity(reason) == "medium"
            <==> (Contains(l, "class ii") || Contains(l, "temporary"))
                 && !Contains(l, "class i") && !Contains(l, "serious")
    ensures var l := Lower(reason);
            GetSeverity(reason) == "medium"
            <==> Contains(l, "temporary") && !Contains(l, "class i") && !Contains(l, "serious")
  {
    var l := Lower(reason);
    GetSeverityHigh(reason);
    if Contains(l, "class ii") {
      ClassTwoContainsClassOne(l);
    }
  }

  /** "low" exactly when none of "class i", "serious" and "temporary" occurs. */
  lemma GetSeverityLow(reason: string)
    ensures var l := Lower(reason);
            GetSeverity(reason) == "low"
            <==> !Contains(l, "class i") && !Contains(l, "serious") && !Contains(l, "temporary")
  {
    GetSeverityHigh(reason);
    GetSeverityMedium(reason);
  }

  /** The three FDA recall classes all come out "high". */
  lemma EveryRecallClassIsHigh()
    ensures GetSeverity("Class I") == "high"
    ensures GetSeverity("Class II") == "high"
    ensures GetSeverity("Class III") == "high"
  {
    StartsClassOneIsHigh("Class I");
    StartsClassOneIsHigh("Class II");
    StartsClassOneIsHigh("Class III");
  }

  /** A classification that starts with "Class I" is "high". */
  lemma StartsClassOneIsHigh(reason: string)
    requires |reason| >= 7 && reason[..7] == "Class I"
    ensures GetSeverity(reason) == "high"
  {
    var l := Lower(reason);
    assert l[..7] == Lower("Class I") == "class i";
    assert OccursAt(l, "class i", 0);
    GetSeverityHigh(reason);
  }
}

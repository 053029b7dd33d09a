/**
 * Severity of a scraped FDA safety announcement, as
 * `FDAScraper._determine_severity` in backend/app.py computes it: keyword
 * search over the lower-cased title and description joined by a space, urgent
 * keywords before warning keywords.
 */
module ScraperSeverity {
  import opened Text

  const UrgentKeywords: seq<string> := ["urgent", "recall", "serious", "death", "fatal", "emergency"]
  const WarningKeywords: seq<string> := ["warning", "caution", "alert", "risk"]

  /**
   * Python's `any(keyword in text for keyword in keywords)`: false for no
   * keywords, true whenever the empty keyword is listed or the text itself is.
   */
  predicate AnyKeyword(keywords: seq<string>, text: string)
    ensures keywords == [] ==> !AnyKeyword(keywords, text)
    ensures [] in keywords ==> AnyKeyword(keywords, text)
    ensures text in keywords ==> AnyKeyword(keywords, text)
  {
    exists k | k in keywords :: Contains(text, k)
  }

  /**
   * The text the keywords are searched in, `(title + ' ' + description).lower()`:
   * the lower-cased title, one space, the lower-cased description.
   */
  function SearchText(title: string, description: string): (r: string)
    ensures r == Lower(title) + [' '] + Lower(description)
  {
    LowerAppend(title + " ", description);
    LowerAppend(title, " ");
    Lower(title + " " + description)
  }

  /** `_determine_severity(title, description)`. */
  function DetermineSeverity(title: string, description: string): (r: string)
    ensures r == "High" || r == "Medium" || r == "Low"
  {
    var titleDesc := SearchText(title, description);
    if AnyKeyword(UrgentKeywords, titleDesc) then "High"
    else if AnyKeyword(WarningKeywords, titleDesc) then "Medium"
    else "Low"
  }

  /**
   * "High" exactly when an urgent keyword occurs, whatever warning keywords occur
   * too; "Medium" exactly when no urgent but some warning keyword occurs; "Low"
   * otherwise.
   */
  lemma DetermineSeverityCases(title: string, description: string)
    ensures var t := SearchText(title, description);
            && (DetermineSeverity(title, description) == "High" <==> AnyKeyword(UrgentKeywords, t))
            && (DetermineSeverity(title, description) == "Medium"
                <==> !AnyKeyword(UrgentKeywords, t) && AnyKeyword(WarningKeywords, t))
            && (DetermineSeverity(title, description) == "Low"
                <==> !AnyKeyword(UrgentKeywords, t) && !AnyKeyword(WarningKeywords, t))
  {
  }

  /** Changing the letter case of the title or the description does not change the severity. */
  lemma DetermineSeverityIgnoresCase(title: string, description: string, title': string, description': string)
    requires Lower(title) == Lower(title')
    requires Lower(description) == Lower(description')
    ensures DetermineSeverity(title, description) == DetermineSeverity(title', description')
  {
    assert SearchText(title, description) == SearchText(title', description');
  }

  /** No keyword holds a space. */
  lemma KeywordsHaveNoSpace(k: string)
    requires k in UrgentKeywords || k in WarningKeywords
    ensures ' ' !in k
  {
  }

  /**
   * A keyword list matches the joined text exactly when it matches the lower-cased
   * title or the lower-cased description: since no keyword holds a space, no match
   * spans the joint. (Stated for any list of space-free keywords; both lists are.)
   */
  lemma AnyKeywordPerField(keywords: seq<string>, title: string, description: string)
    requires forall k :: k in keywords ==> ' ' !in k
    ensures AnyKeyword(keywords, SearchText(title, description))
            <==> AnyKeyword(keywords, Lower(title)) || AnyKeyword(keywords, Lower(description))
  {
    forall k | k in keywords
      ensures Contains(SearchText(title, description), k)
              <==> Contains(Lower(title), k) || Contains(Lower(description), k)
    {
      ContainsAroundSeparator(Lower(title), ' ', Lower(description), k);
    }
  }

  /**
   * The severity judged field by field: "High" exactly when the title or the
   * description holds an urgent keyword; "Medium" exactly when neither does and
   * one of them holds a warning keyword.
   */
  lemma DetermineSeverityPerField(title: string, description: string)
    ensures DetermineSeverity(title, description) == "High"
            <==> AnyKeyword(UrgentKeywords, Lower(title)) || AnyKeyword(UrgentKeywords, Lower(description))
    ensures DetermineSeverity(title, description) == "Medium"
            <==> && !AnyKeyword(UrgentKeywords, Lower(title))
                 && !AnyKeyword(UrgentKeywords, Lower(description))
                 && (AnyKeyword(WarningKeywords, Lower(title)) || AnyKeyword(WarningKeywords, Lower(description)))
  {
    forall k | k in UrgentKeywords ensures ' ' !in k {
      KeywordsHaveNoSpace(k);
    }
    forall k | k in WarningKeywords ensures ' ' !in k {
      KeywordsHaveNoSpace(k);
    }
    AnyKeywordPerField(UrgentKeywords, title, description);
    AnyKeywordPerField(WarningKeywords, title, description);
  }

  /** An announcement titled "Recall" is "High" even though its description speaks of a risk. */
  lemma RecallOutranksRisk()
    ensures DetermineSeverity("Recall", "Risk") == "High"
  {
    var t := SearchText("Recall", "Risk");
    assert t == "recall risk";
    assert OccursAt(t, "recall", 0);
    assert "recall" in UrgentKeywords && Contains(t, "recall");
  }
}

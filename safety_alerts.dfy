/**
 * `FDAScraper.fetch_safety_alerts` in backend/app.py: the FDA drug-safety page
 * is fetched and parsed, and each `div.content-box` block that has a title, a
 * date, a description and a link becomes one alert, in page order; a block
 * missing any of them is skipped, and a failure of the whole fetch gives no
 * alerts. The page is abstracted as the list of its blocks, each block as the
 * elements the loop looks up.
 */
module SafetyAlerts {
  import opened Wrappers
  import opened Text
  import opened ScraperSeverity

  /** The first `a` element of a block; `href` is `None` when it has no such attribute. */
  datatype Anchor = Anchor(href: Option<string>)

  /**
   * One `div.content-box`: the text of its first `h3`, of its first `p.date`, of
   * its first `p.description`, and its first `a`; `None` when the element is absent.
   */
  datatype Block = Block(
    h3: Option<string>,
    date: Option<string>,
    description: Option<string>,
    anchor: Option<Anchor>)

  /** The alert dictionary built for one block. */
  datatype ScrapedAlert = ScrapedAlert(
    title: string,
    date: string,
    description: string,
    sourceUrl: string,
    agency: string,
    severity: string)

  const FdaOrigin := "https://www.fda.gov"

  /** The block has every element the loop reads, so no exception is raised for it. */
  predicate IsComplete(b: Block)
  {
    b.h3.Some? && b.date.Some? && b.description.Some? && b.anchor.Some? && b.anchor.value.href.Some?
  }

  /**
   * The alert for a block whose element texts and link are known: an FDA alert
   * whose link starts with the site origin and ends with the href, whose texts
   * do not start or end with whitespace, and whose severity is one of the three.
   */
  function MakeAlert(h3: string, date: string, description: string, href: string): (a: ScrapedAlert)
    ensures a.agency == "FDA"
    ensures |a.sourceUrl| == |FdaOrigin| + |href|
    ensures a.sourceUrl[..|FdaOrigin|] == FdaOrigin && a.sourceUrl[|FdaOrigin|..] == href
    ensures a.title != [] ==> !IsSpace(a.title[0]) && !IsSpace(a.title[|a.title| - 1])
    ensures a.date != [] ==> !IsSpace(a.date[0]) && !IsSpace(a.date[|a.date| - 1])
    ensures a.description != [] ==> !IsSpace(a.description[0]) && !IsSpace(a.description[|a.description| - 1])
    ensures a.severity == "High" || a.severity == "Medium" || a.severity == "Low"
  {
    var title := Strip(h3);
    var desc := Strip(description);
    ScrapedAlert(
      title := title,
      date := Strip(date),
      description := desc,
      sourceUrl := FdaOrigin + href,
      agency := "FDA",
      severity := DetermineSeverity(title, desc))
  }

  /** The alert of one block, or `None` when a lookup in the loop body would fail. */
  function ParseBlock(b: Block): (r: Option<ScrapedAlert>)
    ensures r.Some? <==> IsComplete(b)
  {
    match b
    case Block(Some(h3), Some(date), Some(description), Some(Anchor(Some(href)))) =>
      Some(MakeAlert(h3, date, description, href))
    case _ => None
  }

  /**
   * The values `parse` yields for the elements of `xs`, in order, leaving out
   * the elements it yields nothing for.
   */
  function FilterMap<A, B>(xs: seq<A>, parse: A -> Option<B>): (r: seq<B>)
    ensures |r| <= |xs|
  {
    if xs == [] then []
    else
      FilterMap(xs[..|xs| - 1], parse)
      + (match parse(xs[|xs| - 1]) case Some(y) => [y] case None => [])
  }

  /** The alerts extracted from a list of blocks, in block order; never more than the blocks. */
  function Extract(blocks: seq<Block>): (r: seq<ScrapedAlert>)
    ensures |r| <= |blocks|
  {
    FilterMap(blocks, ParseBlock)
  }

  /**
   * `fetch_safety_alerts()`: no alerts when the whole fetch failed (`page` is
   * `None`); otherwise the loop over the blocks, skipping incomplete ones.
   */
  method FetchSafetyAlerts(page: Option<seq<Block>>) returns (alerts: seq<ScrapedAlert>)
    ensures page.None? ==> alerts == []
    ensures page.Some? ==> alerts == Extract(page.value)
  {
    if page.None? {
      return [];
    }
    var announcements := page.value;
    alerts := [];
    var i := 0;
    while i < |announcements|
      invariant 0 <= i <= |announcements|
      invariant alerts == Extract(announcements[..i])
    {
      var announcement := announcements[i];
      assert announcements[..i + 1][..i] == announcements[..i];
      i := i + 1;
      if announcement.h3.None? || announcement.date.None? || announcement.description.None?
         || announcement.anchor.None? || announcement.anchor.value.href.None? {
        continue;
      }
      var alert := MakeAlert(announcement.h3.value, announcement.date.value,
                             announcement.description.value, announcement.anchor.value.href.value);
      alerts := alerts + [alert];
    }
    assert announcements[..i] == announcements;
  }

  /** Filtering two lists one after the other is filtering their concatenation. */
  lemma {:induction false} FilterMapAppend<A, B>(xs: seq<A>, ys: seq<A>, parse: A -> Option<B>)
    ensures FilterMap(xs + ys, parse) == FilterMap(xs, parse) + FilterMap(ys, parse)
    decreases |ys|
  {
    if ys == [] {
      assert xs + ys == xs;
    } else {
      var init := ys[..|ys| - 1];
      assert (xs + ys)[..|xs + ys| - 1] == xs + init;
      FilterMapAppend(xs, init, parse);
    }
  }

  /** One element on its own gives its value, or nothing. */
  lemma FilterMapOne<A, B>(x: A, parse: A -> Option<B>)
    ensures FilterMap([x], parse) == if parse(x).Some? then [parse(x).value] else []
  {
  }

  /** When every element yields a value, the result has them all, in order. */
  lemma {:induction false} FilterMapAllSome<A, B>(xs: seq<A>, parse: A -> Option<B>)
    requires forall i :: 0 <= i < |xs| ==> parse(xs[i]).Some?
    ensures |FilterMap(xs, parse)| == |xs|
    ensures forall i :: 0 <= i < |xs| ==> FilterMap(xs, parse)[i] == parse(xs[i]).value
  {
    if xs != [] {
      var n := |xs| - 1;
      var init := xs[..n];
      assert forall i :: 0 <= i < n ==> init[i] == xs[i];
      FilterMapAllSome(init, parse);
    }
  }

  /** A value is in the result exactly when some element yields it. */
  lemma {:induction false} FilterMapMembership<A, B>(xs: seq<A>, parse: A -> Option<B>, y: B)
    ensures y in FilterMap(xs, parse) <==> exists i :: 0 <= i < |xs| && parse(xs[i]) == Some(y)
  {
    if xs != [] {
      var init := xs[..|xs| - 1];
      FilterMapMembership(init, parse, y);
      if exists i :: 0 <= i < |xs| && parse(xs[i]) == Some(y) {
        var i :| 0 <= i < |xs| && parse(xs[i]) == Some(y);
        if i < |init| {
          assert init[i] == xs[i];
        }
      }
      if exists i :: 0 <= i < |init| && parse(init[i]) == Some(y) {
        var i :| 0 <= i < |init| && parse(init[i]) == Some(y);
        assert xs[i] == init[i];
      }
    }
  }

  /** An incomplete block is skipped without changing what its neighbours give. */
  lemma ExtractSkipsIncomplete(before: seq<Block>, b: Block, after: seq<Block>)
    requires !IsComplete(b)
    ensures Extract(before + [b] + after) == Extract(before) + Extract(after)
  {
    FilterMapAppend(before + [b], after, ParseBlock);
    FilterMapAppend(before, [b], ParseBlock);
    FilterMapOne(b, ParseBlock);
  }

  /** A complete block contributes exactly its alert, at its place among the others. */
  lemma ExtractKeepsComplete(before: seq<Block>, b: Block, after: seq<Block>)
    requires IsComplete(b)
    ensures Extract(before + [b] + after) == Extract(before) + [ParseBlock(b).value] + Extract(after)
  {
    FilterMapAppend(before + [b], after, ParseBlock);
    FilterMapAppend(before, [b], ParseBlock);
    FilterMapOne(b, ParseBlock);
  }

  /** When every block is complete, there is one alert per block, in block order. */
  lemma ExtractAllComplete(blocks: seq<Block>)
    requires forall i :: 0 <= i < |blocks| ==> IsComplete(blocks[i])
    ensures |Extract(blocks)| == |blocks|
    ensures forall i :: 0 <= i < |blocks| ==> Extract(blocks)[i] == ParseBlock(blocks[i]).value
  {
    FilterMapAllSome(blocks, ParseBlock);
  }

  /** Every alert comes from a complete block, and every complete block gives its alert. */
  lemma ExtractMembership(blocks: seq<Block>, a: ScrapedAlert)
    ensures a in Extract(blocks)
            <==> exists i :: 0 <= i < |blocks| && IsComplete(blocks[i]) && ParseBlock(blocks[i]) == Some(a)
  {
    FilterMapMembership(blocks, ParseBlock, a);
  }

  /**
   * What every extracted alert carries: the FDA as agency, a link made of the
   * site origin and the block's href, stripped title, date and description, and
   * the severity of that title and description.
   */
  lemma AlertOfBlock(b: Block)
    requires IsComplete(b)
    ensures var a := ParseBlock(b).value;
            && a.agency == "FDA"
            && a.sourceUrl == FdaOrigin + b.anchor.value.href.value
            && a.title == Strip(b.h3.value)
            && a.date == Strip(b.date.value)
            && a.description == Strip(b.description.value)
            && (a.title != [] ==> !IsSpace(a.title[0]) && !IsSpace(a.title[|a.title| - 1]))
            && a.severity == DetermineSeverity(a.title, a.description)
            && (a.severity == "High" || a.severity == "Medium" || a.severity == "Low")
  {
    StripTrims(b.h3.value);
  }
}

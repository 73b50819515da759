/** The sidebar-advertisement reader of `Feed` (feedscraper/feed.py): the
    texts of the rendered ad elements, in document order, become
    `(text, link)` pairs, the first line of each text being the advertiser's
    name and the second its link. */
module Feed {
  import opened Lines

  /** The `Feed.SidebarAd` named tuple. */
  datatype SidebarAd = SidebarAd(text: string, link: string)

  /** Either every ad, in element order, or the failure of the first element
      whose text does not have exactly two lines: `SidebarAd(*lines)` raises a
      `TypeError` for any other number of arguments, and the whole call fails. */
  datatype AdsResult = Ads(ads: seq<SidebarAd>) | ArityError(index: nat, lineCount: nat)

  /** True when `text` splits into exactly the two fields of a `SidebarAd`. */
  predicate IsAdText(text: string)
  {
    |SplitLines(text)| == 2
  }

  /** `get_sidebar_ads` applied to the texts of the matched elements. */
  function SidebarAds(texts: seq<string>): (r: AdsResult)
    ensures texts == [] ==> r == Ads([])
    ensures r.Ads? <==> forall k :: 0 <= k < |texts| ==> IsAdText(texts[k])
    ensures r.Ads? ==> |r.ads| == |texts|
    ensures r.Ads? ==> forall k :: 0 <= k < |texts| ==>
                         SplitLines(texts[k]) == [r.ads[k].text, r.ads[k].link]
    ensures r.ArityError? ==> r.index < |texts| && !IsAdText(texts[r.index])
                              && r.lineCount == |SplitLines(texts[r.index])|
    ensures r.ArityError? ==> forall k :: 0 <= k < r.index ==> IsAdText(texts[k])
  {
    if texts == [] then Ads([])
    else
      var lines := SplitLines(texts[0]);
      if |lines| != 2 then ArityError(0, |lines|)
      else
        match SidebarAds(texts[1..])
        case Ads(rest) => Ads([SidebarAd(lines[0], lines[1])] + rest)
        case ArityError(k, n) => ArityError(k + 1, n)
  }

  /** The text an element shows for `ad`: name and link, each on its own line. */
  function AdText(ad: SidebarAd): string
  {
    JoinLines([ad.text, ad.link])
  }

  /** An ad whose name and link fit on one line each. */
  predicate OneLineFields(ad: SidebarAd)
  {
    '\n' !in ad.text && '\n' !in ad.link
  }

  /** Reading back the rendered texts of ads gives those ads, in order. */
  lemma {:induction false} SidebarAdsOfRendered(ads: seq<SidebarAd>)
    requires forall k :: 0 <= k < |ads| ==> OneLineFields(ads[k])
    ensures SidebarAds(seq(|ads|, k requires 0 <= k < |ads| => AdText(ads[k]))) == Ads(ads)
  {
    var texts := seq(|ads|, k requires 0 <= k < |ads| => AdText(ads[k]));
    forall k | 0 <= k < |ads|
      ensures SplitLines(texts[k]) == [ads[k].text, ads[k].link]
    {
      SplitJoin([ads[k].text, ads[k].link]);
    }
    var r := SidebarAds(texts);
    assert r.Ads?;
    assert r.ads == ads;
  }
}

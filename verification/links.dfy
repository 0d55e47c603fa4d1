/** Absolute links from the `href` attributes of anchors: the site origin
    followed by the attribute, as both the listing and the people-search
    pages are read. */
module Links {
  import opened Options

  /** Each anchor's `href` appended to the origin, in anchor order; `None` is
      the `TypeError` raised when an anchor has no `href`. */
  function PrefixLinks(origin: string, hrefs: seq<Option<string>>): (r: Option<seq<string>>)
    ensures r.Some? ==> |r.value| == |hrefs|
  {
    if |hrefs| == 0 then Some([])
    else
      var rest := PrefixLinks(origin, hrefs[1..]);
      if hrefs[0].Some? && rest.Some? then Some([origin + hrefs[0].value] + rest.value)
      else None
  }

  /** The links are built exactly when every anchor has an `href`; each link
      is the origin followed by its `href`, which can be read back. */
  lemma {:induction false} PrefixLinksSpec(origin: string, hrefs: seq<Option<string>>)
    ensures PrefixLinks(origin, hrefs).Some? <==> forall i :: 0 <= i < |hrefs| ==> hrefs[i].Some?
    ensures PrefixLinks(origin, hrefs).Some? ==> forall i :: 0 <= i < |hrefs| ==>
      var u := PrefixLinks(origin, hrefs).value[i];
      |u| >= |origin| && u[..|origin|] == origin && u[|origin|..] == hrefs[i].value
  {
    if |hrefs| > 0 {
      PrefixLinksSpec(origin, hrefs[1..]);
      assert forall i :: 1 <= i < |hrefs| ==> hrefs[i] == hrefs[1..][i - 1];
    }
  }

  /** Links of consecutive anchor lists keep their order and are not
      deduplicated. */
  lemma {:induction false} PrefixLinksAppend(origin: string, a: seq<Option<string>>, b: seq<Option<string>>)
    requires PrefixLinks(origin, a).Some? && PrefixLinks(origin, b).Some?
    ensures PrefixLinks(origin, a + b) == Some(PrefixLinks(origin, a).value + PrefixLinks(origin, b).value)
    decreases |a|
  {
    var y := PrefixLinks(origin, b).value;
    if |a| == 0 {
      assert a + b == b;
      assert [] + y == y;
    } else {
      assert (a + b)[1..] == a[1..] + b;
      assert (a + b)[0] == a[0];
      PrefixLinksAppend(origin, a[1..], b);
      var h := origin + a[0].value;
      var x := PrefixLinks(origin, a[1..]).value;
      assert [h] + (x + y) == ([h] + x) + y;
    }
  }
}

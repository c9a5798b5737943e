/** utils/paginate.py: choosing the page of a listing from the request's GET
    parameters, with Django's Paginator underneath (every page full except
    the last, an empty listing still having one page), and the links to the
    neighbouring pages. */
module Pagination {
  import opened Wrappers
  import opened Text
  import opened QueryDicts

  /** The GET parameter that carries the page number unless told otherwise. */
  const DefaultPageArg := "p"

  /** The Http404 raised for a page number the paginator refuses. */
  datatype NotFound = InvalidPage(number: int)

  // ---------------------------------------------------------------- Paginator

  /** Paginator.num_pages for a listing of `count` items, allowing an empty
      first page and with no orphans: ceil(count / perPage), and 1 for an
      empty listing. */
  function NumPages(count: nat, perPage: nat): (r: nat)
    requires perPage > 0
    ensures r >= 1
    ensures count <= r * perPage
    ensures count > 0 ==> (r - 1) * perPage < count
  {
    if count == 0 then 1
    else
      var r := (count + perPage - 1) / perPage;
      assert r * perPage <= count + perPage - 1 < (r + 1) * perPage;
      r
  }

  /** Paginator.validate_number for an integer: 1 through the last page. */
  predicate ValidPage(number: int, count: nat, perPage: nat)
    requires perPage > 0
  {
    1 <= number <= NumPages(count, perPage)
  }

  /** The index of the first item of a valid page. */
  function PageStart(number: int, count: nat, perPage: nat): (r: nat)
    requires perPage > 0 && ValidPage(number, count, perPage)
    ensures r <= count
    ensures r < count || count == 0
  {
    MulLe(number - 1, NumPages(count, perPage) - 1, perPage);
    (number - 1) * perPage
  }

  /** The index just past the last item of a valid page. */
  function PageEnd(number: int, count: nat, perPage: nat): (r: nat)
    requires perPage > 0 && ValidPage(number, count, perPage)
    ensures PageStart(number, count, perPage) <= r <= count
  {
    var top := PageStart(number, count, perPage) + perPage;
    if top >= count then count else top
  }

  /** Paginator.page(number).object_list: the items from the page's start to
      its end. */
  function PageItems<T>(items: seq<T>, perPage: nat, number: int): (r: seq<T>)
    requires perPage > 0 && ValidPage(number, |items|, perPage)
  {
    items[PageStart(number, |items|, perPage)..PageEnd(number, |items|, perPage)]
  }

  /** page.has_previous() */
  predicate HasPrevious(number: int)
  {
    number > 1
  }

  /** page.has_next() */
  predicate HasNext(number: int, count: nat, perPage: nat)
    requires perPage > 0
  {
    number < NumPages(count, perPage)
  }

  // ---------------------------------------------------------------- paginate()

  /** request.GET.get(page_arg, 1) passed through int(): the last value
      given for the parameter, and page 1 when there is none or it is not an
      integer. */
  function PageNumber(get: MultiValueDict, pageArg: string): (r: int)
    ensures Get(get, pageArg).None? ==> r == 1
    ensures Get(get, pageArg).Some? && ParseInt(Get(get, pageArg).value).None? ==> r == 1
  {
    match Get(get, pageArg)
    case None => 1
    case Some(v) =>
      match ParseInt(v)
      case None => 1
      case Some(n) => n
  }

  /** A page number past the first is valid exactly when items remain
      for it. */
  lemma {:induction false} ValidPageHoldsItems(number: int, count: nat, perPage: nat)
    requires perPage > 0
    ensures ValidPage(number, count, perPage) <==> 1 <= number && (number == 1 || (number - 1) * perPage < count)
  {
    var pages := NumPages(count, perPage);
    if 1 < number <= pages {
      assert count > 0;
      MulMonotone(number - 1, pages - 1, perPage);
    }
    if 1 < number && (number - 1) * perPage < count {
      if number > pages {
        MulMonotone(pages, number - 1, perPage);
      }
    }
  }

  lemma MulMonotone(a: int, b: int, c: nat)
    requires a <= b
    ensures a * c <= b * c
  {
  }

  /** The page paginate() shows, or the Http404 it raises: the first page
      is always shown, and a later one only when items remain for it. */
  function ChoosePage(get: MultiValueDict, pageArg: string, count: nat, perPage: nat): (r: Result<int, NotFound>)
    requires perPage > 0
    ensures var n := PageNumber(get, pageArg);
            r.Ok? <==> 1 <= n && (n == 1 || (n - 1) * perPage < count)
    ensures r.Ok? ==> r.value == PageNumber(get, pageArg)
    ensures r.Err? ==> r.error == InvalidPage(PageNumber(get, pageArg))
  {
    var number := PageNumber(get, pageArg);
    ValidPageHoldsItems(number, count, perPage);
    if ValidPage(number, count, perPage) then Ok(number) else Err(InvalidPage(number))
  }

  /** A link: a path and the GET parameters after it. */
  datatype Url = Url(path: string, query: MultiValueDict)

  /** The text of a link: '%s?%s' of the path and the urlencoded
      parameters. */
  function UrlText(u: Url): string
  {
    u.path + "?" + Encode(u.query)
  }

  /** build_page_url(num): the request path and the request's GET
      parameters with the page parameter set to num. */
  function PageUrl(path: string, get: MultiValueDict, pageArg: string, num: int): Url
  {
    Url(path, SetItem(get, pageArg, IntToString(num)))
  }

  /** The paginator paginate() returns, with the attributes it attaches:
      the page shown, the page parameter, and the links to the previous and
      next pages when there are such pages. */
  class Paginator<T> {
    const objectList: seq<T>
    const perPage: nat
    var thisPage: int
    var pageArg: string
    var previousUrl: Option<Url>
    var nextUrl: Option<Url>

    /** Paginator(queryset, page_size, allow_empty_first_page=True) */
    constructor (objectList: seq<T>, perPage: nat)
      requires perPage > 0
      ensures this.objectList == objectList && this.perPage == perPage
      ensures thisPage == 1 && pageArg == DefaultPageArg
      ensures previousUrl.None? && nextUrl.None?
    {
      this.objectList := objectList;
      this.perPage := perPage;
      thisPage := 1;
      pageArg := DefaultPageArg;
      previousUrl := None;
      nextUrl := None;
    }
  }

  /** paginate(request, queryset, page_size, page_arg): for the request's
      path and GET parameters, either the Http404 for a page the paginator
      refuses, or the paginator (with this_page, page_arg, previous_url and
      next_url set) and the items of the page. */
  method Paginate<T>(path: string, get: MultiValueDict, items: seq<T>, pageSize: nat, pageArg: string)
    returns (r: Result<(Paginator<T>, seq<T>), NotFound>)
    requires pageSize > 0
    ensures r.Err? <==> ChoosePage(get, pageArg, |items|, pageSize).Err?
    ensures r.Err? ==> r.error == ChoosePage(get, pageArg, |items|, pageSize).error
    ensures r.Ok? ==>
      var number := PageNumber(get, pageArg);
      var p := r.value.0;
      fresh(p) && ValidPage(number, |items|, pageSize)
      && r.value.1 == PageItems(items, pageSize, number)
      && p.objectList == items && p.perPage == pageSize
      && p.thisPage == number && p.pageArg == pageArg
      && p.previousUrl == (if HasPrevious(number) then Some(PageUrl(path, get, pageArg, number - 1)) else None)
      && p.nextUrl == (if HasNext(number, |items|, pageSize) then Some(PageUrl(path, get, pageArg, number + 1)) else None)
  {
    var paginator := new Paginator(items, pageSize);
    var chosen := ChoosePage(get, pageArg, |items|, pageSize);
    if chosen.Err? {
      return Err(chosen.error);
    }
    var number := chosen.value;
    paginator.thisPage, paginator.pageArg := number, pageArg;
    paginator.previousUrl, paginator.nextUrl := NeighbourLinks(path, get, pageArg, number, |items|, pageSize);
    r := Ok((paginator, PageItems(items, pageSize, number)));
  }

  /** The previous_url and next_url paginate() attaches: a link to the
      previous page when there is one, and to the next page when there is
      one. */
  method NeighbourLinks(path: string, get: MultiValueDict, pageArg: string, number: int, count: nat, perPage: nat)
    returns (previousUrl: Option<Url>, nextUrl: Option<Url>)
    requires perPage > 0
    ensures previousUrl == (if HasPrevious(number) then Some(PageUrl(path, get, pageArg, number - 1)) else None)
    ensures nextUrl == (if HasNext(number, count, perPage) then Some(PageUrl(path, get, pageArg, number + 1)) else None)
  {
    previousUrl := None;
    if HasPrevious(number) {
      previousUrl := Some(PageUrl(path, get, pageArg, number - 1));
    }
    nextUrl := None;
    if HasNext(number, count, perPage) {
      nextUrl := Some(PageUrl(path, get, pageArg, number + 1));
    }
  }

  // ---------------------------------------------------------------- lemmas

  /** No page parameter shows page 1. */
  lemma PageNumberMissing()
    ensures PageNumber([], "p") == 1
    ensures PageNumber([("q", ["3"])], "p") == 1
  {
    var d: MultiValueDict := [("q", ["3"])];
    assert !HasKey(d, "p");
  }

  /** A page parameter int() refuses shows page 1. */
  lemma PageNumberNotInteger()
    ensures PageNumber([("p", ["abc"])], "p") == 1
  {
    var d: MultiValueDict := [("p", ["abc"])];
    assert FindKey(d, "p") == Some(0);
    assert Strip("abc") == "abc";
  }

  /** The last value of the page parameter counts, spaces around it
      allowed. */
  lemma PageNumberLast()
    ensures PageNumber([("p", ["2", " 3 "])], "p") == 3
  {
    var d: MultiValueDict := [("p", ["2", " 3 "])];
    assert FindKey(d, "p") == Some(0);
    assert Strip(" 3 ") == "3";
    ParseIntDigits("3");
  }

  /** Page 999 of a two-page listing is the Http404. */
  lemma PastLastPage()
    ensures ChoosePage([("p", ["999"])], "p", 60, 50) == Err(InvalidPage(999))
  {
    var d: MultiValueDict := [("p", ["999"])];
    assert FindKey(d, "p") == Some(0);
    assert Get(d, "p") == Some("999");
    ParseNineHundredNinetyNine();
    assert PageNumber(d, "p") == 999;
    assert NumPages(60, 50) == 2;
  }

  lemma ParseNineHundredNinetyNine()
    ensures ParseInt("999") == Some(999)
  {
    ParseIntDigits("999");
    assert "999"[..2] == "99" && "99"[..1] == "9";
  }

  /** Page 0 is the Http404. */
  lemma PageZero()
    ensures ChoosePage([("p", ["0"])], "p", 60, 50) == Err(InvalidPage(0))
  {
    var d: MultiValueDict := [("p", ["0"])];
    assert FindKey(d, "p") == Some(0);
    assert Strip("0") == "0";
    ParseIntDigits("0");
  }

  /** An empty listing still shows its one, empty, page. */
  lemma EmptyListing(get: MultiValueDict, pageArg: string)
    requires !HasKey(get, pageArg)
    ensures ChoosePage(get, pageArg, 0, 50) == Ok(1)
  {
  }

  lemma MulLe(a: int, b: int, c: nat)
    requires a <= b
    ensures a * c <= b * c
  {
  }

  lemma MulSucc(a: int, c: int)
    ensures (a + 1) * c == a * c + c
  {
  }

  /** The neighbouring pages a page links to exist: previous_url and
      next_url never lead to the Http404. */
  lemma NeighboursValid(number: int, count: nat, perPage: nat)
    requires perPage > 0 && ValidPage(number, count, perPage)
    ensures HasPrevious(number) <==> number - 1 >= 1 && ValidPage(number - 1, count, perPage)
    ensures HasNext(number, count, perPage) <==> ValidPage(number + 1, count, perPage)
  {
  }

  /** Every page but the last is full, and the last is not empty unless the
      whole listing is. */
  lemma PageSizes<T>(items: seq<T>, perPage: nat, number: int)
    requires perPage > 0 && ValidPage(number, |items|, perPage)
    ensures HasNext(number, |items|, perPage) ==> |PageItems(items, perPage, number)| == perPage
    ensures |items| > 0 ==> |PageItems(items, perPage, number)| > 0
    ensures |PageItems(items, perPage, number)| <= perPage
  {
    var n := NumPages(|items|, perPage);
    MulSucc(number - 1, perPage);
    if HasNext(number, |items|, perPage) {
      MulLe(number, n - 1, perPage);
    }
  }

  /** The first k pages, one after another. */
  function FirstPages<T>(items: seq<T>, perPage: nat, k: nat): (r: seq<T>)
    requires perPage > 0 && k <= NumPages(|items|, perPage)
  {
    if k == 0 then [] else FirstPages(items, perPage, k - 1) + PageItems(items, perPage, k)
  }

  /** The first k pages are the listing up to the end of page k. */
  lemma {:induction false} FirstPagesPrefix<T>(items: seq<T>, perPage: nat, k: nat)
    requires perPage > 0 && 1 <= k <= NumPages(|items|, perPage)
    ensures FirstPages(items, perPage, k) == items[..PageEnd(k, |items|, perPage)]
    decreases k
  {
    if k > 1 {
      FirstPagesPrefix(items, perPage, k - 1);
      var end := PageEnd(k - 1, |items|, perPage);
      assert PageStart(k, |items|, perPage) == end by {
        MulSucc(k - 2, perPage);
      }
      assert items[..PageEnd(k, |items|, perPage)] == items[..end] + items[end..PageEnd(k, |items|, perPage)];
    }
  }

  /** The pages, read in order, are the whole listing: every item is on
      exactly one page, in the listing's order. */
  lemma PagesCoverListing<T>(items: seq<T>, perPage: nat)
    requires perPage > 0
    ensures FirstPages(items, perPage, NumPages(|items|, perPage)) == items
  {
    var n := NumPages(|items|, perPage);
    FirstPagesPrefix(items, perPage, n);
    assert PageEnd(n, |items|, perPage) == |items|;
  }

  /** The query of a page link sets the page parameter to the page's number
      and keeps every other GET parameter as the request had it. */
  lemma PageUrlQuery(path: string, get: MultiValueDict, pageArg: string, num: int, other: string)
    requires DistinctKeys(get)
    ensures GetList(PageUrl(path, get, pageArg, num).query, pageArg) == [IntToString(num)]
    ensures other != pageArg ==> GetList(PageUrl(path, get, pageArg, num).query, other) == GetList(get, other)
    ensures PageNumber(PageUrl(path, get, pageArg, num).query, pageArg) == num
  {
    SetItemValues(get, pageArg, IntToString(num), other);
    ParseIntOfInt(num);
  }

  /** str() of an integer has no '&'. */
  lemma IntToStringPlain(n: int)
    ensures '&' !in IntToString(n)
  {
    var d := NatToString(if n < 0 then -n else n);
    assert forall k :: 0 <= k < |d| ==> IsDigit(d[k]);
  }

  /** The text of a page link reads back, through QueryDict, as the
      parameters it was built from, when the request's parameters and the
      page parameter survive urlencode(). */
  lemma PageUrlRoundTrip(path: string, get: MultiValueDict, pageArg: string, num: int)
    requires Encodable(get) && '&' !in pageArg && '=' !in pageArg
    ensures Parse(Encode(PageUrl(path, get, pageArg, num).query)) == PageUrl(path, get, pageArg, num).query
    ensures UrlText(PageUrl(path, get, pageArg, num)) == path + "?" + Encode(PageUrl(path, get, pageArg, num).query)
  {
    IntToStringPlain(num);
    SetItemEncodable(get, pageArg, IntToString(num));
    ParseEncode(SetItem(get, pageArg, IntToString(num)));
  }
}

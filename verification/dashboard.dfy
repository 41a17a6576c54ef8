/** The personal-account and shop-dashboard views of `users/views.py`: page
    selection, who sees which orders, the seller's status change with its
    redirect, and the seller's product search. Template rendering is left
    out; a view's outcome is the data it would render or where it
    redirects. */
module Dashboard {
  import opened Wrappers
  import opened Text
  import opened Seqs
  import opened Orders
  import opened Catalog

  // ---------------------------------------------------------------------
  // Pagination (Django's `Paginator` with 24 per page)

  const PerPage: nat := 24

  /** `paginator.num_pages`: at least one page, even for an empty list. */
  function NumPages(count: nat): (n: nat)
    ensures n >= 1
    ensures count <= n * PerPage
    ensures n == 1 || (n - 1) * PerPage < count
  {
    if count == 0 then 1 else (count + PerPage - 1) / PerPage
  }

  /** `int(s)`: surrounding whitespace, an optional sign and decimal digits
      of any script; `None` where `int` raises. */
  function ParseInt(s: string): (r: Option<int>)
    ensures IsDigits(Trim(s)) ==> r == Some(ParseNat(Trim(s)) as int)
    ensures r.Some? ==> Trim(s) != []
  {
    ParseSigned(Trim(s))
  }

  /** `int()` reads the stripped text when it is decimal digits of any
      script, or such digits after one sign, and rejects everything else. */
  lemma ParseIntSpec(s: string)
    ensures var t := Trim(s);
      t != [] && ReadDecimal(t).Some? ==> ParseInt(s) == Some(ReadDecimal(t).value as int)
    ensures var t := Trim(s);
      |t| >= 2 && t[0] == '-' && ReadDecimal(t[1..]).Some? ==> ParseInt(s) == Some(-(ReadDecimal(t[1..]).value as int))
    ensures var t := Trim(s);
      |t| >= 2 && t[0] == '+' && ReadDecimal(t[1..]).Some? ==> ParseInt(s) == Some(ReadDecimal(t[1..]).value as int)
    ensures var t := Trim(s);
      ParseInt(s).Some? ==> (t != [] && ReadDecimal(t).Some?) || (|t| >= 2 && (t[0] == '+' || t[0] == '-') && ReadDecimal(t[1..]).Some?)
  {
    ParseIntNamed(s, Trim(s));
  }

  /** The same four facts, with the stripped text `t` named. */
  lemma ParseIntNamed(s: string, t: string)
    requires t == Trim(s)
    ensures t != [] && ReadDecimal(t).Some? ==> ParseInt(s) == Some(ReadDecimal(t).value as int)
    ensures |t| >= 2 && t[0] == '-' && ReadDecimal(t[1..]).Some? ==> ParseInt(s) == Some(-(ReadDecimal(t[1..]).value as int))
    ensures |t| >= 2 && t[0] == '+' && ReadDecimal(t[1..]).Some? ==> ParseInt(s) == Some(ReadDecimal(t[1..]).value as int)
    ensures ParseInt(s).Some? ==> (t != [] && ReadDecimal(t).Some?) || (|t| >= 2 && (t[0] == '+' || t[0] == '-') && ReadDecimal(t[1..]).Some?)
  {
    SignedReadsDigits(t);
    SignedReadsMinus(t);
    SignedReadsPlus(t);
    SignedAcceptsOnly(t);
  }

  /** Stripped text of decimal digits reads as their value. */
  lemma SignedReadsDigits(t: string)
    ensures t != [] && ReadDecimal(t).Some? ==> ParseSigned(t) == Some(ReadDecimal(t).value as int)
  {
  }

  /** Digits after a minus sign read as their negated value. */
  lemma SignedReadsMinus(t: string)
    ensures |t| >= 2 && t[0] == '-' && ReadDecimal(t[1..]).Some? ==> ParseSigned(t) == Some(-(ReadDecimal(t[1..]).value as int))
  {
    if |t| >= 2 && t[0] == '-' {
      SignNotDecimal(t[0]);
      ReadDecimalRejects(t, 0);
    }
  }

  /** Digits after a plus sign read as their value. */
  lemma SignedReadsPlus(t: string)
    ensures |t| >= 2 && t[0] == '+' && ReadDecimal(t[1..]).Some? ==> ParseSigned(t) == Some(ReadDecimal(t[1..]).value as int)
  {
    if |t| >= 2 && t[0] == '+' {
      SignNotDecimal(t[0]);
      ReadDecimalRejects(t, 0);
    }
  }

  /** Nothing but digits, alone or after one sign, is accepted. */
  lemma SignedAcceptsOnly(t: string)
    ensures ParseSigned(t).Some? ==> (t != [] && ReadDecimal(t).Some?) || (|t| >= 2 && (t[0] == '+' || t[0] == '-') && ReadDecimal(t[1..]).Some?)
  {
  }

  /** `int` on an already stripped string. */
  function ParseSigned(t: string): (r: Option<int>)
    ensures IsDigits(t) ==> r == Some(ParseNat(t) as int)
    ensures r.Some? ==> t != []
  {
    if t != [] && ReadDecimal(t).Some? then Some(ReadDecimal(t).value)
    else if |t| >= 2 && (t[0] == '+' || t[0] == '-') && ReadDecimal(t[1..]).Some? then
      var v: int := ReadDecimal(t[1..]).value;
      Some(if t[0] == '-' then -v else v)
    else None
  }

  lemma TrimKeeps(s: string)
    requires s != [] && !IsSpace(s[0]) && !IsSpace(s[|s| - 1])
    ensures Trim(s) == s
  {
    assert TrimLeft(s) == s;
  }

  /** `int(str(n))` reads the number back. */
  lemma ParseIntOfString(n: nat)
    ensures ParseInt(NatToString(n)) == Some(n)
  {
    TrimDigits(n);
    ParseNatToString(n);
  }

  /** `int("-" + str(n))` reads the negated number back. */
  lemma ParseIntOfNegative(n: nat)
    ensures ParseInt("-" + NatToString(n)) == Some(-(n as int))
  {
    TrimSigned(n);
    ParseIntStripped("-" + NatToString(n));
    NegativeSigned(n);
  }

  lemma NegativeSigned(n: nat)
    ensures ParseSigned("-" + NatToString(n)) == Some(-(n as int))
  {
    ParseNatToString(n);
    ParseSignedMinus(NatToString(n));
  }

  lemma ParseIntStripped(t: string)
    requires Trim(t) == t
    ensures ParseInt(t) == ParseSigned(t)
  {
  }

  /** A minus sign before digits negates them. */
  lemma ParseSignedMinus(s: string)
    requires IsDigits(s)
    ensures ParseSigned("-" + s) == Some(-(ParseNat(s) as int))
  {
    var m := "-" + s;
    MinusPrefix(s);
    NegatedDigits(m, ParseNat(s));
  }

  /** `int()` does not read a minus sign, but does read the digits after it. */
  lemma MinusPrefix(s: string)
    requires IsDigits(s)
    ensures ReadDecimal("-" + s).None?
    ensures ("-" + s)[0] == '-' && ReadDecimal(("-" + s)[1..]) == Some(ParseNat(s))
  {
    var m := "-" + s;
    assert m[0] == '-' && m[1..] == s;
    assert DecimalValue('-').None?;
    ReadDecimalRejects(m, 0);
  }

  /** A minus sign before a string `int()` reads negates its value. */
  lemma NegatedDigits(t: string, v: nat)
    requires |t| >= 2 && t[0] == '-' && ReadDecimal(t).None? && ReadDecimal(t[1..]) == Some(v)
    ensures ParseSigned(t) == Some(-(v as int))
  {
  }

  /** A decimal numeral has no whitespace to strip. */
  lemma TrimDigits(n: nat)
    ensures Trim(NatToString(n)) == NatToString(n)
  {
    var s := NatToString(n);
    assert IsDigit(s[0]) && IsDigit(s[|s| - 1]);
    TrimKeeps(s);
  }

  /** Nor has a negative one. */
  lemma TrimSigned(n: nat)
    ensures Trim("-" + NatToString(n)) == "-" + NatToString(n)
  {
    var s := NatToString(n);
    var m := "-" + s;
    assert m[0] == '-' && m[|m| - 1] == s[|s| - 1] && IsDigit(s[|s| - 1]);
    TrimKeeps(m);
  }

  /** The page shown for the raw `page` parameter: 1 when it is missing or
      not an integer (`PageNotAnInteger`), the last page when it is outside
      the range (`EmptyPage`), otherwise the page asked for. */
  function PageNumber(raw: Option<string>, count: nat): (n: nat)
    ensures 1 <= n <= NumPages(count)
  {
    match raw
    case None => 1
    case Some(s) =>
      match ParseInt(s)
      case None => 1
      case Some(k) => if 1 <= k <= NumPages(count) then k else NumPages(count)
  }

  /** `paginator.page(n).object_list`. */
  function PageSlice<T>(xs: seq<T>, n: nat): (r: seq<T>)
    requires 1 <= n <= NumPages(|xs|)
    ensures |r| <= PerPage
    ensures n < NumPages(|xs|) ==> |r| == PerPage
    ensures (n - 1) * PerPage + |r| <= |xs|
    ensures forall k :: 0 <= k < |r| ==> r[k] == xs[(n - 1) * PerPage + k]
  {
    var bottom := (n - 1) * PerPage;
    var top := if bottom + PerPage < |xs| then bottom + PerPage else |xs|;
    xs[bottom..top]
  }

  /** The page the views render: the list cut at the page chosen. */
  function Paginate<T>(xs: seq<T>, raw: Option<string>): (r: seq<T>)
    ensures forall x :: x in r ==> x in xs
  {
    var r := PageSlice(xs, PageNumber(raw, |xs|));
    assert forall k :: 0 <= k < |r| ==> r[k] in xs;
    r
  }

  /** Every entry of the list is on exactly the page its position names, so
      the pages together show the whole list, each entry once. */
  lemma PageCovers<T>(xs: seq<T>, i: nat)
    requires i < |xs|
    ensures 1 <= i / PerPage + 1 <= NumPages(|xs|)
    ensures var page := PageSlice(xs, i / PerPage + 1);
      i % PerPage < |page| && page[i % PerPage] == xs[i]
  {
    var n := i / PerPage + 1;
    var c := |xs|;
    assert i / PerPage * PerPage <= i;
    assert n * PerPage <= c + PerPage - 1;
    assert (c + PerPage - 1) / PerPage * PerPage > c + PerPage - 1 - PerPage;
    assert n <= NumPages(c);
  }

  /** The three rules of the page parameter. */
  lemma PageNumberRules(raw: string, count: nat)
    ensures ParseInt(raw).None? ==> PageNumber(Some(raw), count) == 1
    ensures ParseInt(raw).Some? && 1 <= ParseInt(raw).value <= NumPages(count) ==>
      PageNumber(Some(raw), count) == ParseInt(raw).value
    ensures ParseInt(raw).Some? && (ParseInt(raw).value < 1 || ParseInt(raw).value > NumPages(count)) ==>
      PageNumber(Some(raw), count) == NumPages(count)
    ensures PageNumber(None, count) == 1
  {
  }

  /** Fifty orders make three pages, forty-eight two, none one. */
  lemma PageCountExamples()
    ensures NumPages(50) == 3 && NumPages(0) == 1 && NumPages(48) == 2
  {
  }

  /** With fifty orders "abc" shows the first page, "0" and "7" the last,
      "2" the second. */
  lemma PageExamples()
    ensures PageNumber(Some("abc"), 50) == 1
    ensures PageNumber(Some("2"), 50) == 2
    ensures PageNumber(Some("0"), 50) == 3
    ensures PageNumber(Some("7"), 50) == 3
  {
    ParseIntRejects("abc");
    PageCountExamples();
    ParseIntOfString(2);
    ParseIntOfString(0);
    ParseIntOfString(7);
    PageNumberRules("abc", 50);
    PageNumberRules(NatToString(2), 50);
    PageNumberRules(NatToString(0), 50);
    PageNumberRules(NatToString(7), 50);
    assert NatToString(2) == "2" && NatToString(0) == "0" && NatToString(7) == "7";
  }

  /** Text that starts with anything but whitespace, a sign or a decimal
      digit is not a number. */
  lemma ParseIntRejects(s: string)
    requires s != [] && !IsSpace(s[|s| - 1])
    requires !IsSpace(s[0]) && DecimalValue(s[0]).None? && s[0] != '+' && s[0] != '-'
    ensures ParseInt(s) == None
  {
    TrimKeeps(s);
  }

  // ---------------------------------------------------------------------
  // The customer's orders

  /** An order with the account that placed it (`None` when it has none). */
  datatype Placed = Placed(user: Option<nat>, order: Order)

  function Mine(placed: seq<Placed>, user: nat): (r: seq<Order>)
    ensures forall o :: o in r <==> exists k :: 0 <= k < |placed| && placed[k].user == Some(user) && placed[k].order == o
  {
    if placed == [] then []
    else
      assert forall k :: 0 < k < |placed| ==> placed[k] == placed[1..][k - 1];
      (if placed[0].user == Some(user) then [placed[0].order] else []) + Mine(placed[1..], user)
  }

  /** `personal_account_orders`: the user's own orders, newest first (the
      given order), one page of them. */
  function CustomerOrders(placed: seq<Placed>, user: nat, raw: Option<string>): (r: seq<Order>)
    ensures forall o :: o in r ==> exists k :: 0 <= k < |placed| && placed[k].user == Some(user) && placed[k].order == o
  {
    Paginate(Mine(placed, user), raw)
  }

  /** A support message for the order's shop, queued by the order page. */
  datatype SupportMail = SupportMail(order: nat, shopTitle: string, user: nat, message: string)

  datatype Detail =
    | DetailNotFound
    | ToOrders
    | DetailShown(mail: Option<SupportMail>)
    /** `order.shop.title` on an order without a shop raises. */
    | DetailError

  /** `personal_account_order_detail`: `shopTitle` is the title of the
      order's shop, `None` when it has none; `message` the posted text. */
  function OrderDetail(found: Option<Placed>, pk: nat, requester: nat, post: bool,
                       message: Option<string>, shopTitle: Option<string>): (r: Detail)
    ensures found.None? ==> r == DetailNotFound
    ensures found.Some? && found.value.user != Some(requester) ==> r == ToOrders
    ensures r == DetailError <==>
      found.Some? && found.value.user == Some(requester) && post && message.Some? && message.value != "" && shopTitle.None?
  {
    match found
    case None => DetailNotFound
    case Some(p) =>
      if p.user != Some(requester) then ToOrders
      else if post && message.Some? && message.value != "" then
        (match shopTitle
         case None => DetailError
         case Some(t) => DetailShown(Some(SupportMail(pk, t, requester, message.value))))
      else DetailShown(None)
  }

  /** Only the buyer sees the order; a support mail is queued exactly for a
      posted non-empty message of the buyer, and it carries that message. */
  lemma OrderDetailMail(p: Placed, pk: nat, requester: nat, post: bool, message: Option<string>, title: string)
    ensures var r := OrderDetail(Some(p), pk, requester, post, message, Some(title));
      (r.DetailShown? <==> p.user == Some(requester)) &&
      (r.DetailShown? && r.mail.Some? <==> p.user == Some(requester) && post && message.Some? && message.value != "") &&
      (r.DetailShown? && r.mail.Some? ==> r.mail.value == SupportMail(pk, title, requester, message.value))
  {
  }

  // ---------------------------------------------------------------------
  // The shop's orders

  /** A list view's outcome: the redirect to the shop form, one page of
      items, or a server error raised while building the query. */
  datatype Listing<T> = ToShopDocs | Listed(items: seq<T>) | ServerError

  /** `if keyword:`: a missing or empty parameter is no keyword. */
  predicate HasKeyword(keyword: Option<string>) {
    keyword.Some? && keyword.value != ""
  }

  /** The orders the shop's list draws from: paid orders of the shop whose
      number contains the keyword, if there is one. */
  predicate ShopOrder(o: Order, shop: nat, keyword: Option<string>) {
    o.shop == Some(shop) && o.paid &&
    (HasKeyword(keyword) ==> ContainsIgnoreCase(NatToString(o.id), keyword.value))
  }

  function ShopOrderList(orders: seq<Order>, shop: nat, keyword: Option<string>): (r: seq<Order>)
    ensures forall o :: o in r <==> o in orders && ShopOrder(o, shop, keyword)
  {
    if orders == [] then []
    else (if ShopOrder(orders[0], shop, keyword) then [orders[0]] else []) + ShopOrderList(orders[1..], shop, keyword)
  }

  /** `shop_orders`: a user without a shop goes to the shop form; otherwise
      one page of the shop's paid orders, newest first. */
  function ShopOrders(userShop: Option<nat>, orders: seq<Order>, keyword: Option<string>, raw: Option<string>)
    : (r: Listing<Order>)
    ensures r.ToShopDocs? <==> userShop.None?
    ensures !r.ServerError?
  {
    match userShop
    case None => ToShopDocs
    case Some(s) => Listed(Paginate(ShopOrderList(orders, s, keyword), raw))
  }

  /** Every order listed is paid and belongs to the user's shop; and without
      a keyword every such order is on one of the pages. */
  lemma ShopOrdersSpec(shop: nat, orders: seq<Order>, keyword: Option<string>, raw: Option<string>)
    ensures forall o :: o in ShopOrders(Some(shop), orders, keyword, raw).items ==>
      o in orders && o.paid && o.shop == Some(shop)
    ensures forall o :: o in orders && o.paid && o.shop == Some(shop) ==>
      o in ShopOrderList(orders, shop, None)
  {
  }

  // ---------------------------------------------------------------------
  // The status change

  /** A task sending the customer the order's new status. */
  datatype StatusMail = StatusMail(order: nat)

  datatype StatusOutcome =
    | StatusNotFound
    /** A request other than POST makes the view return nothing, which the
        framework reports as a server error. */
    | NoResponse
    | StatusRedirect(order: Order, url: string, mails: seq<StatusMail>)

  /** The address the change redirects to, back at the order's card. */
  function StatusUrl(base: string, page: Option<string>, q: Option<string>, id: nat): (u: string)
    ensures IsPrefix(base + "?page=", u)
  {
    var u := base + "?page=" + page.GetOr("") + "&q=" + q.GetOr("") + "#order-" + NatToString(id);
    assert u[..|base + "?page="|] == base + "?page=";
    u
  }

  /** The fragment reads back the order's number: with no '#' before it, the
      URL splits on '#' into the list address and "order-<id>". */
  lemma StatusUrlFragment(base: string, page: Option<string>, q: Option<string>, id: nat)
    requires '#' !in base && '#' !in page.GetOr("") && '#' !in q.GetOr("")
    ensures var parts := SplitOn('#', StatusUrl(base, page, q, id));
      |parts| == 2 && parts[1] == "order-" + NatToString(id)
    ensures forall id2: nat :: StatusUrl(base, page, q, id) == StatusUrl(base, page, q, id2) ==> id == id2
  {
    var head := base + "?page=" + page.GetOr("") + "&q=" + q.GetOr("");
    var tail := "order-" + NatToString(id);
    assert '#' !in "?page=" && '#' !in "&q=";
    assert '#' !in head;
    assert forall i :: 0 <= i < |NatToString(id)| ==> IsDigit(NatToString(id)[i]);
    assert '#' !in tail;
    assert StatusUrl(base, page, q, id) == head + ['#'] + tail;
    SplitAfterPart('#', head, tail);
    SplitWithout('#', tail);
    forall id2: nat | StatusUrl(base, page, q, id) == StatusUrl(base, page, q, id2) ensures id == id2 {
      var u := StatusUrl(base, page, q, id);
      assert u == head + "#order-" + NatToString(id);
      assert u == head + "#order-" + NatToString(id2);
      assert u[|head + "#order-"|..] == NatToString(id);
      assert u[|head + "#order-"|..] == NatToString(id2);
      NatToStringInjective(id, id2);
    }
  }

  /** The order as the seller's shop can see it: `get_object_or_404` by
      number and by the seller's shop (`None` matches orders without one). */
  function Lookup(orders: map<nat, Order>, id: nat, userShop: Option<nat>): (r: Option<Order>)
    ensures r.Some? <==> id in orders && orders[id].shop == userShop
  {
    if id in orders && orders[id].shop == userShop then Some(orders[id]) else None
  }

  /** `update_order_status`: a listed status other than `awaiting_payment`
      replaces the order's and queues the customer's mail; anything else
      leaves the order alone; both redirect to the order's card. */
  function ChangeStatus(post: bool, orders: map<nat, Order>, id: nat, userShop: Option<nat>,
                        newStatus: Option<string>, base: string, page: Option<string>, q: Option<string>)
    : (r: StatusOutcome)
    ensures r.StatusRedirect? ==> id in orders && r.url == StatusUrl(base, page, q, id)
    ensures r.StatusRedirect? ==> r.order.(status := orders[id].status) == orders[id]
  {
    if !post then NoResponse
    else match Lookup(orders, id, userShop)
      case None => StatusNotFound
      case Some(o) =>
        var parsed := if newStatus.Some? then ParseStatus(newStatus.value) else None;
        var url := StatusUrl(base, page, q, id);
        if parsed.Some? && parsed.value != AwaitingPayment then
          StatusRedirect(o.(status := parsed.value), url, [StatusMail(o.id)])
        else StatusRedirect(o, url, [])
  }

  /** The status changes, and the mail is queued, exactly when the posted
      value is one of the listed codes other than "awaiting_payment"; the
      redirect does not depend on it. */
  lemma ChangeStatusIff(orders: map<nat, Order>, id: nat, userShop: Option<nat>, code: string,
                        base: string, page: Option<string>, q: Option<string>)
    requires Lookup(orders, id, userShop).Some?
    ensures var r := ChangeStatus(true, orders, id, userShop, Some(code), base, page, q);
      r.StatusRedirect? &&
      (r.mails != [] <==> code in StatusCodes && code != "awaiting_payment") &&
      (r.mails != [] ==> r.order.status == ParseStatus(code).value && r.mails == [StatusMail(orders[id].id)]) &&
      (r.mails == [] ==> r.order == orders[id])
    ensures ChangeStatus(true, orders, id, userShop, None, base, page, q).StatusRedirect?
    ensures ChangeStatus(true, orders, id, userShop, None, base, page, q).order == orders[id]
  {
    var parsed := ParseStatus(code);
    if parsed.Some? {
      StatusRoundTrip(parsed.value, code);
    }
  }

  /** A user without a shop reaches every order that has none: the lookup
      compares the order's shop with the user's, `None` included. */
  lemma ShoplessUserReachesShoplessOrders(o: Order)
    requires o.shop.None?
    ensures Lookup(map[o.id := o], o.id, None) == Some(o)
  {
  }

  // ---------------------------------------------------------------------
  // The shop's products

  /** `shop_products` admits only a user whose shop exists and is verified. */
  function ProductsGate(userShop: Option<Shop>): (admitted: bool)
    ensures admitted <==> userShop.Some? && userShop.value.verified
  {
    userShop.Some? && userShop.value.verified
  }

  /** What the number test makes of the keyword. It applies only when
      `keyword.isdigit()` holds, which admits digits of every kind; the
      lookup `pk__exact` then reads the keyword with `int()`, which raises
      on a digit that is not a decimal one (a superscript, a circled
      digit). */
  datatype NumberTest = NoNumber | Number(n: nat) | NotANumber

  function NumberTestOf(keyword: string): (r: NumberTest)
    ensures r.NoNumber? <==> !IsDigitString(keyword)
    ensures IsDigits(keyword) ==> r == Number(ParseNat(keyword))
  {
    if !IsDigitString(keyword) then NoNumber
    else
      match ReadDecimal(keyword)
      case Some(n) => Number(n)
      case None => NotANumber
  }

  /** The number test fails exactly on a keyword of digits one of which is
      not decimal, and otherwise reads what `int()` reads. */
  lemma NumberTestSpec(keyword: string)
    ensures NumberTestOf(keyword).NotANumber? <==>
      IsDigitString(keyword) && exists i :: 0 <= i < |keyword| && DecimalValue(keyword[i]).None?
    ensures NumberTestOf(keyword).Number? ==> ParseInt(keyword) == Some(NumberTestOf(keyword).n as int)
  {
    if NumberTestOf(keyword).Number? {
      DecimalNotSpace(keyword[0]);
      DecimalNotSpace(keyword[|keyword| - 1]);
      TrimKeeps(keyword);
    }
  }

  /** The keyword tests that do not look at categories: the name contains
      it, or the number test reads the product's number from it. */
  predicate NameOrNumber(p: Product, keyword: string) {
    ContainsIgnoreCase(p.name, keyword) || NumberTestOf(keyword) == Number(p.id)
  }

  /** A product matches when the name or number does or a category title
      contains the keyword. */
  predicate Matches(p: Product, keyword: string) {
    NameOrNumber(p, keyword) || exists i :: 0 <= i < |p.categories| && ContainsIgnoreCase(p.categories[i].title, keyword)
  }

  /** The rows the search query yields for one product as written: the
      category join makes one row per category (one row with no category
      when there is none), and each row that passes the test is kept. */
  function SearchRows(p: Product, keyword: string): (r: seq<Product>)
    ensures forall q :: q in r ==> q == p
    ensures r != [] <==> Matches(p, keyword)
  {
    if p.categories == [] then (if NameOrNumber(p, keyword) then [p] else [])
    else CategoryRows(p, p.categories, keyword)
  }

  function CategoryRows(p: Product, cs: seq<Category>, keyword: string): (r: seq<Product>)
    ensures forall q :: q in r ==> q == p
    ensures r != [] <==> cs != [] && (NameOrNumber(p, keyword) || exists i :: 0 <= i < |cs| && ContainsIgnoreCase(cs[i].title, keyword))
  {
    if cs == [] then []
    else
      var rest := CategoryRows(p, cs[1..], keyword);
      assert forall i :: 0 < i < |cs| ==> cs[i] == cs[1..][i - 1];
      (if NameOrNumber(p, keyword) || ContainsIgnoreCase(cs[0].title, keyword) then [p] else []) + rest
  }

  /** The shop's products the search lists, as written: the query has no
      `distinct()`, so a product appears once per matching join row. */
  function SearchAsWritten(products: seq<Product>, shopSlug: string, keyword: string): (r: seq<Product>)
    ensures forall p :: p in r <==> p in products && p.shopSlug == shopSlug && Matches(p, keyword)
  {
    if products == [] then []
    else
      var p := products[0];
      var rows := if p.shopSlug == shopSlug then SearchRows(p, keyword) else [];
      assert rows != [] ==> rows[0] in rows;
      rows + SearchAsWritten(products[1..], shopSlug, keyword)
  }

  /** The search as intended: each matching product of the shop once, in
      the given (newest first) order. */
  function Search(products: seq<Product>, shopSlug: string, keyword: string): (r: seq<Product>)
    ensures forall p :: p in r <==> p in products && p.shopSlug == shopSlug && Matches(p, keyword)
    ensures |r| <= |products|
  {
    if products == [] then []
    else
      var p := products[0];
      (if p.shopSlug == shopSlug && Matches(p, keyword) then [p] else []) + Search(products[1..], shopSlug, keyword)
  }

  /** The intended search never repeats a product of a duplicate-free list. */
  lemma {:induction false} SearchNoDup(products: seq<Product>, shopSlug: string, keyword: string)
    requires NoDup(products)
    ensures NoDup(Search(products, shopSlug, keyword))
  {
    if products != [] {
      var t := products[1..];
      assert NoDup(t) && products[0] !in t by {
        assert forall k :: 0 <= k < |t| ==> t[k] == products[k + 1];
      }
      SearchNoDup(t, shopSlug, keyword);
      var rest := Search(t, shopSlug, keyword);
      var r := Search(products, shopSlug, keyword);
      if products[0].shopSlug == shopSlug && Matches(products[0], keyword) {
        assert r == [products[0]] + rest;
        forall i, j | 0 <= i < j < |r| ensures r[i] != r[j] {
          assert r[j] == rest[j - 1] && rest[j - 1] in rest;
          if i > 0 {
            assert r[i] == rest[i - 1];
          }
        }
      } else {
        assert r == rest;
      }
    }
  }

  /** Both searches find the same products; they differ only in repetition. */
  lemma SearchSameProducts(products: seq<Product>, shopSlug: string, keyword: string)
    ensures forall p :: p in SearchAsWritten(products, shopSlug, keyword) <==> p in Search(products, shopSlug, keyword)
  {
  }

  /** A product named "AK" with two categories, searched for "ak", is listed
      twice as written and once as intended. */
  lemma SearchDuplicateExample()
    ensures var p := Product(1, "AK", [Category("a", "a"), Category("b", "b")], "s", None, 1.0, Some(1),
                             None, None, None, None, None, None, true, true, "", None);
      SearchAsWritten([p], "s", "ak") == [p, p] && Search([p], "s", "ak") == [p]
  {
    var p := Product(1, "AK", [Category("a", "a"), Category("b", "b")], "s", None, 1.0, Some(1),
                     None, None, None, None, None, None, true, true, "", None);
    assert Lower("AK") == "ak" && Lower("ak") == "ak";
    assert IsPrefix("ak", "ak");
    assert ContainsIgnoreCase("AK", "ak");
    assert NameOrNumber(p, "ak");
    var cs := p.categories;
    assert cs[1..] == [Category("b", "b")] && cs[1..][1..] == [];
    assert CategoryRows(p, cs[1..], "ak") == [p] + CategoryRows(p, [], "ak");
    assert CategoryRows(p, cs, "ak") == [p, p];
    assert [p][1..] == [];
    assert Matches(p, "ak");
  }

  /** A keyword of digits also finds the product with that number, whatever
      its name and categories; any other keyword finds by text only. */
  lemma DigitKeyword(p: Product, keyword: string)
    ensures IsDigits(keyword) && p.id == ParseNat(keyword) ==> Matches(p, keyword)
    ensures NumberTestOf(keyword) == Number(p.id) ==> Matches(p, keyword)
    ensures !IsDigitString(keyword) ==>
      (Matches(p, keyword) <==>
        (ContainsIgnoreCase(p.name, keyword) ||
         exists i :: 0 <= i < |p.categories| && ContainsIgnoreCase(p.categories[i].title, keyword)))
  {
  }

  /** The Arabic-Indic three finds product 3 and reads as 3 as a page
      number. */
  lemma ArabicIndicThree()
    ensures NumberTestOf("\U{663}") == Number(3)
    ensures ParseInt("\U{663}") == Some(3)
  {
    assert DecimalValue('\U{663}') == Some(3);
    assert ReadDecimal("\U{663}") == Some(3);
    NumberTestSpec("\U{663}");
  }

  /** The superscript two passes `isdigit()` but not `int()`. */
  lemma SuperscriptTwo()
    ensures NumberTestOf("\U{B2}") == NotANumber
  {
    assert IsDigitChar('\U{B2}') && DecimalValue('\U{B2}').None?;
    NumberTestSpec("\U{B2}");
  }

  /** So a verified shop's search for the superscript two fails in both
      views. */
  lemma SuperscriptTwoFails(shop: Shop, products: seq<Product>, raw: Option<string>)
    requires shop.verified
    ensures ShopProducts(Some(shop), products, Some("\U{B2}"), raw) == ServerError
    ensures ShopProductsIntended(Some(shop), products, Some("\U{B2}"), raw) == ServerError
  {
    SuperscriptTwo();
  }

  /** `shop_products` as written: the gate, then one page of the shop's
      products, filtered when a keyword is given. A keyword of digits that
      `int()` cannot read makes building the query raise. The filtered list
      is the query without `distinct()`, so a product matching through two
      categories takes two places on the page and in the page count. */
  function ShopProducts(userShop: Option<Shop>, products: seq<Product>, keyword: Option<string>, raw: Option<string>)
    : (r: Listing<Product>)
    ensures r.ToShopDocs? <==> !ProductsGate(userShop)
    ensures r.ServerError? <==> ProductsGate(userShop) && HasKeyword(keyword) && NumberTestOf(keyword.value).NotANumber?
    ensures r.Listed? ==> forall p :: p in r.items ==> p in products && p.shopSlug == userShop.value.slug
    ensures r.Listed? && HasKeyword(keyword) ==> forall p :: p in r.items ==> Matches(p, keyword.value)
  {
    if !ProductsGate(userShop) then ToShopDocs
    else
      var slug := userShop.value.slug;
      if HasKeyword(keyword) && NumberTestOf(keyword.value).NotANumber? then ServerError
      else
        var all := if HasKeyword(keyword) then SearchAsWritten(products, slug, keyword.value) else ShopProductList(products, slug);
        Listed(Paginate(all, raw))
  }

  /** The page `shop_products` evidently means to show: the same view with
      each matching product listed once. */
  function ShopProductsIntended(userShop: Option<Shop>, products: seq<Product>, keyword: Option<string>, raw: Option<string>)
    : (r: Listing<Product>)
    ensures r.ToShopDocs? <==> !ProductsGate(userShop)
    ensures r.ServerError? <==> ProductsGate(userShop) && HasKeyword(keyword) && NumberTestOf(keyword.value).NotANumber?
    ensures r.Listed? ==> forall p :: p in r.items ==> p in products && p.shopSlug == userShop.value.slug
    ensures r.Listed? && HasKeyword(keyword) ==> forall p :: p in r.items ==> Matches(p, keyword.value)
  {
    if !ProductsGate(userShop) then ToShopDocs
    else
      var slug := userShop.value.slug;
      if HasKeyword(keyword) && NumberTestOf(keyword.value).NotANumber? then ServerError
      else
        var all := if HasKeyword(keyword) then Search(products, slug, keyword.value) else ShopProductList(products, slug);
        Listed(Paginate(all, raw))
  }

  /** The two views differ only in the keyword search: without a keyword,
      or with one that raises, they give the same outcome, and otherwise
      they paginate the two searches, which find the same products. */
  lemma ShopProductsDiffer(userShop: Option<Shop>, products: seq<Product>, keyword: Option<string>, raw: Option<string>)
    ensures !HasKeyword(keyword) || NumberTestOf(keyword.value).NotANumber? ==>
      ShopProducts(userShop, products, keyword, raw) == ShopProductsIntended(userShop, products, keyword, raw)
    ensures ProductsGate(userShop) && HasKeyword(keyword) && !NumberTestOf(keyword.value).NotANumber? ==>
      ShopProducts(userShop, products, keyword, raw) ==
        Listed(Paginate(SearchAsWritten(products, userShop.value.slug, keyword.value), raw)) &&
      ShopProductsIntended(userShop, products, keyword, raw) ==
        Listed(Paginate(Search(products, userShop.value.slug, keyword.value), raw))
  {
  }

  function ShopProductList(products: seq<Product>, slug: string): (r: seq<Product>)
    ensures forall p :: p in r <==> p in products && p.shopSlug == slug
  {
    if products == [] then []
    else (if products[0].shopSlug == slug then [products[0]] else []) + ShopProductList(products[1..], slug)
  }
}

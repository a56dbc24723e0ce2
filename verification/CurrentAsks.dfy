/** Best current ask of one token: the eligible orders, ordered by price as decimal text. */
module CurrentAsks {
  import opened Common
  import opened Sequences
  import D = Decimal

  /** A row of the orders table; None is SQL NULL. */
  datatype Order = Order(id: string, chain: int, collection: int, token: Option<string>, maker: string,
                         scopeKind: Option<string>, side: Option<string>, sourceStatus: Option<string>,
                         fillability: string,
                         price: Option<string>, currency: Option<string>, validFrom: Option<int>,
                         validUntil: Option<int>)

  datatype Scope = Scope(chain: int, collection: int, token: string, maker: Option<string>, currencies: seq<string>,
                         now: int)

  predicate Eligible(o: Order) {
    && o.scopeKind == Some("token") && o.side == Some("sell")
    && o.sourceStatus == Some("active") && o.fillability == "fillable"
    && o.token.Some? && o.price.Some? && o.price.value != "" && D.Digits(o.price.value)
  }

  /** The WHERE clause; a comparison with NULL does not hold. */
  predicate Matches(s: Scope, o: Order) {
    && o.chain == s.chain && o.collection == s.collection && o.token == Some(s.token)
    && (s.maker.Some? ==> o.maker == s.maker.value)
    && Eligible(o)
    && o.currency.Some? && o.currency.value in s.currencies
    && (o.validFrom.None? || o.validFrom.value <= s.now)
    && (o.validUntil.None? || o.validUntil.value > s.now)
  }

  function NormalizedPrice(o: Order): string { if o.price.Some? then D.Normal(o.price.value) else "" }

  function Currency(o: Order): string { if o.currency.Some? then o.currency.value else "" }

  /** The ORDER BY clause: length of the normalized price, its text, currency, id. */
  predicate Before(a: Order, b: Order) {
    var p, q := NormalizedPrice(a), NormalizedPrice(b);
    |p| < |q| || (|p| == |q| &&
    (D.TextLess(p, q) || (p == q &&
    (D.TextLess(Currency(a), Currency(b)) || (Currency(a) == Currency(b) &&
    D.TextLess(a.id, b.id))))))
  }

  /** The row LIMIT 1 keeps: the one nothing precedes. */
  function Least(orders: seq<Order>): (o: Order)
    requires orders != []
    ensures o in orders
  {
    var last := orders[|orders| - 1];
    if |orders| == 1 then last
    else
      var best := Least(orders[..|orders| - 1]);
      if Before(last, best) then last else best
  }

  function ByScope(s: Scope): Order -> bool { (o: Order) => Matches(s, o) }

  /** Asking without a supported currency is refused before any query runs. */
  function CurrentAsk(orders: seq<Order>, s: Scope): Result<Option<Order>> {
    if s.currencies == [] then Thrown
    else
      var rows := Filter(orders, ByScope(s));
      Ok(if rows == [] then None else Some(Least(rows)))
  }

  // ---------------------------------------------------------------- numeric meaning of the order

  function Price(o: Order): nat {
    if o.price.Some? && D.Digits(o.price.value) then D.Val(o.price.value) else 0
  }

  /** Cheaper, or equally priced and earlier by currency and then by id. */
  predicate Cheaper(a: Order, b: Order) {
    Price(a) < Price(b) || (Price(a) == Price(b) &&
    (D.TextLess(Currency(a), Currency(b)) || (Currency(a) == Currency(b) && D.TextLess(a.id, b.id))))
  }

  /** For prices of any number of digits, the text order of the query is the numeric order. */
  lemma BeforeIsCheaper(a: Order, b: Order)
    requires Eligible(a) && Eligible(b)
    ensures Before(a, b) <==> Cheaper(a, b)
  {
    hide D.TextLess, D.Val, D.Normal;
    D.NormalIsToDec(a.price.value);
    D.NormalIsToDec(b.price.value);
    D.CanonicalOrder(NormalizedPrice(a), NormalizedPrice(b));
  }

  lemma CheaperTotal(a: Order, b: Order)
    ensures a.id != b.id ==> Cheaper(a, b) || Cheaper(b, a)
    ensures !(Cheaper(a, b) && Cheaper(b, a))
  {
    hide D.TextLess, D.Val;
    D.TextLessTotal(Currency(a), Currency(b));
    D.TextLessTotal(a.id, b.id);
  }

  lemma CheaperTransitive(a: Order, b: Order, c: Order)
    requires Cheaper(a, b) && Cheaper(b, c)
    ensures Cheaper(a, c)
  {
    hide D.TextLess, Price;
    if D.TextLess(Currency(a), Currency(b)) && D.TextLess(Currency(b), Currency(c)) {
      D.TextLessTransitive(Currency(a), Currency(b), Currency(c));
    }
    if D.TextLess(a.id, b.id) && D.TextLess(b.id, c.id) { D.TextLessTransitive(a.id, b.id, c.id); }
  }

  /** Ids are the table's primary key. */
  predicate DistinctIds(orders: seq<Order>) {
    forall i, j :: 0 <= i < j < |orders| ==> orders[i].id != orders[j].id
  }

  /** The kept row is cheaper than every other row. */
  lemma {:induction false} LeastIsCheapest(orders: seq<Order>)
    requires orders != [] && DistinctIds(orders) && forall o :: o in orders ==> Eligible(o)
    ensures forall o :: o in orders && o != Least(orders) ==> Cheaper(Least(orders), o)
  {
    hide Before, Cheaper, Eligible;
    var n := |orders| - 1;
    var last := orders[n];
    if n > 0 {
      var rest := orders[..n];
      LeastIsCheapest(rest);
      var best, least := Least(rest), Least(orders);
      assert last in orders && best in orders;
      BeforeIsCheaper(last, best);
      assert last.id != best.id by { var i :| 0 <= i < n && orders[i] == best; }
      CheaperTotal(last, best);
      forall o | o in orders && o != least ensures Cheaper(least, o) {
        if least == last && o != best {
          assert o in rest;
          CheaperTransitive(last, best, o);
        } else if o != last {
          assert o in rest;
        }
      }
    }
  }

  lemma {:induction false} FilterIds(orders: seq<Order>, p: Order -> bool)
    requires DistinctIds(orders)
    ensures DistinctIds(Filter(orders, p))
  {
    if orders != [] {
      var n := |orders| - 1;
      var rest := Filter(orders[..n], p);
      FilterIds(orders[..n], p);
      forall i | 0 <= i < |rest| ensures rest[i].id != orders[n].id {
        assert rest[i] in orders[..n];
      }
    }
  }

  /** The answer is an order exactly when that order matches and is cheaper than every other match; it
      is empty exactly when nothing matches. */
  lemma CurrentAskExact(orders: seq<Order>, s: Scope, a: Order)
    requires DistinctIds(orders) && s.currencies != []
    ensures CurrentAsk(orders, s) == Ok(Some(a)) <==>
            a in orders && Matches(s, a) && forall o | o in orders && Matches(s, o) && o != a :: Cheaper(a, o)
    ensures CurrentAsk(orders, s) == Ok(None) <==> forall o :: o in orders ==> !Matches(s, o)
  {
    var rows := Filter(orders, ByScope(s));
    FilterIds(orders, ByScope(s));
    assert forall o :: Matches(s, o) ==> Eligible(o);
    hide Filter, Least, Matches, Cheaper;
    assert forall o :: o in rows <==> o in orders && Matches(s, o);
    if rows != [] {
      assert rows[0] in rows;
      LeastIsCheapest(rows);
      var least := Least(rows);
      if a in rows && a != least {
        CheaperTotal(a, least);
      }
    }
  }

  /** So the selected price is numerically least, and the row order of the table is irrelevant. */
  lemma CurrentAskIsNumericallyLeast(orders: seq<Order>, s: Scope)
    requires DistinctIds(orders) && CurrentAsk(orders, s).Ok? && CurrentAsk(orders, s).value.Some?
    ensures var a := CurrentAsk(orders, s).value.value;
            a in orders && Matches(s, a) && forall o | o in orders && Matches(s, o) :: Price(a) <= Price(o)
  {
    assert s.currencies != [];
    hide CurrentAsk, Matches, Price, D.TextLess;
    CurrentAskExact(orders, s, CurrentAsk(orders, s).value.value);
  }

  lemma CurrentAskPermutes(x: seq<Order>, y: seq<Order>, s: Scope)
    requires multiset(x) == multiset(y) && DistinctIds(x) && DistinctIds(y)
    ensures CurrentAsk(x, s) == CurrentAsk(y, s)
  {
    hide Matches, Cheaper, Filter, Least;
    PermutesLength(x, y);
    if s.currencies != [] {
      var r := CurrentAsk(x, s);
      if r.value.Some? {
        CurrentAskExact(x, s, r.value.value);
        CurrentAskExact(y, s, r.value.value);
      } else {
        var q := CurrentAsk(y, s);
        if q.value.Some? {
          CurrentAskExact(x, s, q.value.value);
          CurrentAskExact(y, s, q.value.value);
        }
      }
    }
  }

  /** An order is on offer for a scope exactly when it is an active, fillable listing of that very token, by the
      maker asked for if any, in a supported currency, inside its validity and with a whole-number price. */
  lemma MatchesExactly(s: Scope, o: Order)
    ensures Matches(s, o) <==>
            && o.chain == s.chain && o.collection == s.collection && o.token == Some(s.token)
            && (s.maker == None || s.maker == Some(o.maker))
            && o.scopeKind == Some("token") && o.side == Some("sell")
            && o.sourceStatus == Some("active") && o.fillability == "fillable"
            && (exists p :: p != "" && D.Digits(p) && o.price == Some(p))
            && (exists c :: c in s.currencies && o.currency == Some(c))
            && (forall from :: o.validFrom == Some(from) ==> from <= s.now)
            && (forall until :: o.validUntil == Some(until) ==> s.now < until)
  {
  }
}

/** The session cart of `cart/cart.py`: a dictionary from the product id
    (as a string) to `{qty, price, shop_slug}`, stored in the session under
    `'session_key'`. Python dictionaries keep insertion order, so the cart is
    a sequence of entries with distinct keys; `ToMap` is its dictionary view. */
module SessionCart {
  import opened Text
  import opened Wrappers

  datatype Item = Item(qty: int, price: real, shopSlug: string)

  datatype Entry = Entry(key: string, item: Item)

  type Cart = seq<Entry>

  /** The session value under `'session_key'`, absent before the first visit. */
  datatype Session = Session(stored: Option<Cart>)

  function KeySet(c: Cart): set<string> {
    if c == [] then {} else KeySet(c[..|c| - 1]) + {c[|c| - 1].key}
  }

  /** No key occurs twice, as in any dictionary: each entry's key is new
      with respect to the entries before it. */
  predicate ValidCart(c: Cart) {
    c == [] || (ValidCart(c[..|c| - 1]) && c[|c| - 1].key !in KeySet(c[..|c| - 1]))
  }

  /** The dictionary the entries spell out. */
  function ToMap(c: Cart): (m: map<string, Item>)
    ensures m.Keys == KeySet(c)
  {
    if c == [] then map[] else ToMap(c[..|c| - 1])[c[|c| - 1].key := c[|c| - 1].item]
  }

  /** The key the source uses for a product: `str(product.pk)`. */
  function KeyOf(pid: nat): string {
    NatToString(pid)
  }

  // ---------------------------------------------------------------------
  // Cart.__init__

  /** `Cart(request)`: reuses a stored non-empty cart, otherwise stores and
      uses a fresh empty one. Returns the new session and the cart. */
  function Open(s: Session): (r: (Session, Cart))
    ensures r.0.stored == Some(r.1)
    ensures s.stored.Some? && s.stored.value != [] ==> r == (s, s.stored.value)
    ensures s.stored.None? || s.stored.value == [] ==> r.1 == []
  {
    match s.stored
    case Some(c) => if c == [] then (Session(Some([])), []) else (s, c)
    case None => (Session(Some([])), [])
  }

  // ---------------------------------------------------------------------
  // add / delete / update

  /** `Cart.add`: inserts a new entry for an id not yet present; an id already
      present leaves the cart as it is (there is no increment). */
  function Add(c: Cart, pid: nat, price: real, shopSlug: string, qty: int): Cart {
    var k := KeyOf(pid);
    if k in KeySet(c) then c else c + [Entry(k, Item(qty, price, shopSlug))]
  }

  function DeleteKey(c: Cart, k: string): Cart {
    if c == [] then []
    else if c[|c| - 1].key == k then DeleteKey(c[..|c| - 1], k)
    else DeleteKey(c[..|c| - 1], k) + [c[|c| - 1]]
  }

  /** `Cart.delete`: removes the entry keyed `str(product)` when present. */
  function Delete(c: Cart, pid: nat): Cart {
    DeleteKey(c, KeyOf(pid))
  }

  function UpdateKey(c: Cart, k: string, qty: int): Cart {
    if c == [] then []
    else
      UpdateKey(c[..|c| - 1], k, qty) + [Updated(c[|c| - 1], k, qty)]
  }

  /** `Cart.update`: overwrites the quantity of an existing entry only. */
  function Update(c: Cart, pid: nat, qty: int): Cart {
    UpdateKey(c, KeyOf(pid), qty)
  }

  // ---------------------------------------------------------------------
  // __len__ and get_total_price

  /** `len(cart)`: the sum of the quantities. */
  function Len(c: Cart): int {
    if c == [] then 0 else Len(c[..|c| - 1]) + c[|c| - 1].item.qty
  }

  /** `Decimal(item['price']) * item['qty']`. */
  function LineCost(e: Entry): real {
    e.item.price * e.item.qty as real
  }

  /** `get_total_price()`: the sum of `price * qty`. */
  function Total(c: Cart): real {
    if c == [] then 0.0 else Total(c[..|c| - 1]) + LineCost(c[|c| - 1])
  }

  // ---------------------------------------------------------------------
  // Properties

  /** Appending one entry: the prefix and last entry read back, and every
      view grows by that entry. */
  lemma Snoc(c: Cart, e: Entry)
    ensures var d := c + [e];
      d != [] && d[..|d| - 1] == c && d[|d| - 1] == e &&
      KeySet(d) == KeySet(c) + {e.key} &&
      ToMap(d) == ToMap(c)[e.key := e.item] &&
      Len(d) == Len(c) + e.item.qty &&
      Total(d) == Total(c) + LineCost(e)
  {
    var d := c + [e];
    assert d[..|d| - 1] == c;
  }

  /** A non-empty cart is its prefix with the last entry appended. */
  lemma Split(c: Cart)
    requires c != []
    ensures c == c[..|c| - 1] + [c[|c| - 1]]
  {
  }

  /** Adding an id not in the cart stores `{qty, price, shop_slug}` under it and
      nothing else changes; adding an id already there changes nothing at all. */
  lemma AddSpec(c: Cart, pid: nat, price: real, shopSlug: string, qty: int)
    requires ValidCart(c)
    ensures ValidCart(Add(c, pid, price, shopSlug, qty))
    ensures KeyOf(pid) in ToMap(c) ==> Add(c, pid, price, shopSlug, qty) == c
    ensures KeyOf(pid) !in ToMap(c) ==>
      ToMap(Add(c, pid, price, shopSlug, qty)) == ToMap(c)[KeyOf(pid) := Item(qty, price, shopSlug)]
      && Len(Add(c, pid, price, shopSlug, qty)) == Len(c) + qty
      && Total(Add(c, pid, price, shopSlug, qty)) == Total(c) + price * qty as real
  {
    var k := KeyOf(pid);
    if k !in KeySet(c) {
      Snoc(c, Entry(k, Item(qty, price, shopSlug)));
    }
  }

  lemma {:induction false} DeleteAbsent(c: Cart, k: string)
    requires k !in KeySet(c)
    ensures DeleteKey(c, k) == c
  {
    if c != [] {
      DeleteAbsent(c[..|c| - 1], k);
      Split(c);
    }
  }

  lemma {:induction false} DeleteKeys(c: Cart, k: string)
    ensures KeySet(DeleteKey(c, k)) == KeySet(c) - {k}
    ensures |DeleteKey(c, k)| <= |c|
  {
    if c != [] {
      var p := c[..|c| - 1];
      DeleteKeys(p, k);
      if c[|c| - 1].key != k {
        Snoc(DeleteKey(p, k), c[|c| - 1]);
      }
    }
  }

  lemma {:induction false} DeleteValid(c: Cart, k: string)
    requires ValidCart(c)
    ensures ValidCart(DeleteKey(c, k))
  {
    if c != [] {
      var p := c[..|c| - 1];
      DeleteValid(p, k);
      if c[|c| - 1].key != k {
        DeleteKeys(p, k);
        Snoc(DeleteKey(p, k), c[|c| - 1]);
      }
    }
  }

  /** `delete` removes exactly the entry under `str(product)`, if any: the
      dictionary loses that key, the other entries stay, and the length and
      total drop by that entry's share. */
  lemma DeleteSpec(c: Cart, pid: nat)
    requires ValidCart(c)
    ensures ValidCart(Delete(c, pid))
    ensures ToMap(Delete(c, pid)) == ToMap(c) - {KeyOf(pid)}
    ensures KeyOf(pid) !in ToMap(c) ==> Delete(c, pid) == c
    ensures Len(Delete(c, pid)) == Len(c) - QtyAt(ToMap(c), KeyOf(pid))
    ensures Total(Delete(c, pid)) == Total(c) - LineAt(ToMap(c), KeyOf(pid))
  {
    var k := KeyOf(pid);
    DeleteValid(c, k);
    DeleteKeyMap(c, k);
    DeleteKeyLen(c, k);
    DeleteKeyTotal(c, k);
    if k !in ToMap(c) {
      DeleteAbsent(c, k);
    }
  }

  lemma {:induction false} DeleteKeyMap(c: Cart, k: string)
    requires ValidCart(c)
    ensures ToMap(DeleteKey(c, k)) == ToMap(c) - {k}
  {
    if c != [] {
      var p := c[..|c| - 1];
      var last := c[|c| - 1];
      DeleteKeyMap(p, k);
      var mp := ToMap(p);
      if last.key == k {
        DeleteAbsent(p, k);
        RemoveUpdated(mp, k, last.item);
      } else {
        Snoc(DeleteKey(p, k), last);
        RemoveOther(mp, k, last.key, last.item);
      }
    }
  }

  /** Removing a key just written drops the write. */
  lemma RemoveUpdated(m: map<string, Item>, k: string, v: Item)
    requires k !in m
    ensures m[k := v] - {k} == m - {k}
  {
  }

  /** Removing one key commutes with writing another. */
  lemma RemoveOther(m: map<string, Item>, k: string, j: string, v: Item)
    requires j != k
    ensures m[j := v] - {k} == (m - {k})[j := v]
  {
  }

  /** The quantity stored under `k`, zero when absent. */
  function QtyAt(m: map<string, Item>, k: string): int {
    if k in m then m[k].qty else 0
  }

  /** The line total `price * qty` stored under `k`, zero when absent. */
  function LineAt(m: map<string, Item>, k: string): real {
    if k in m then m[k].price * m[k].qty as real else 0.0
  }

  /** The last entry's share of the dictionary view, against the prefix's. */
  lemma LastShare(c: Cart, k: string)
    requires ValidCart(c) && c != []
    ensures var p := c[..|c| - 1]; var last := c[|c| - 1];
      if last.key == k then QtyAt(ToMap(p), k) == 0 && LineAt(ToMap(p), k) == 0.0
        && QtyAt(ToMap(c), k) == last.item.qty && LineAt(ToMap(c), k) == last.item.price * last.item.qty as real
      else QtyAt(ToMap(c), k) == QtyAt(ToMap(p), k) && LineAt(ToMap(c), k) == LineAt(ToMap(p), k)
  {
  }

  lemma {:induction false} DeleteKeyLen(c: Cart, k: string)
    requires ValidCart(c)
    ensures Len(DeleteKey(c, k)) == Len(c) - QtyAt(ToMap(c), k)
  {
    if c != [] {
      var p := c[..|c| - 1];
      var last := c[|c| - 1];
      DeleteKeyLen(p, k);
      LastShare(c, k);
      if last.key != k {
        Snoc(DeleteKey(p, k), last);
      }
    }
  }

  lemma {:induction false} DeleteKeyTotal(c: Cart, k: string)
    requires ValidCart(c)
    ensures Total(DeleteKey(c, k)) == Total(c) - LineAt(ToMap(c), k)
  {
    if c != [] {
      DeleteKeyTotal(c[..|c| - 1], k);
      DeleteKeyTotalStep(c, k);
    }
  }

  lemma DeleteKeyTotalStep(c: Cart, k: string)
    requires ValidCart(c) && c != []
    requires var p := c[..|c| - 1]; Total(DeleteKey(p, k)) == Total(p) - LineAt(ToMap(p), k)
    ensures Total(DeleteKey(c, k)) == Total(c) - LineAt(ToMap(c), k)
  {
    var p := c[..|c| - 1];
    var last := c[|c| - 1];
    LastShare(c, k);
    if last.key != k {
      Snoc(DeleteKey(p, k), last);
    }
  }

  /** The entry `UpdateKey` puts in place of `e`. */
  function Updated(e: Entry, k: string, qty: int): (r: Entry)
    ensures r.key == e.key && r.item.price == e.item.price && r.item.shopSlug == e.item.shopSlug
  {
    if e.key == k then Entry(k, e.item.(qty := qty)) else e
  }

  lemma UpdateKeySnoc(c: Cart, k: string, qty: int)
    requires c != []
    ensures UpdateKey(c, k, qty) == UpdateKey(c[..|c| - 1], k, qty) + [Updated(c[|c| - 1], k, qty)]
  {
  }

  lemma {:induction false} UpdateKeyKeys(c: Cart, k: string, qty: int)
    ensures |UpdateKey(c, k, qty)| == |c|
    ensures forall i :: 0 <= i < |c| ==> UpdateKey(c, k, qty)[i].key == c[i].key
    ensures KeySet(UpdateKey(c, k, qty)) == KeySet(c)
  {
    if c != [] {
      var p := c[..|c| - 1];
      var last := c[|c| - 1];
      UpdateKeyKeys(p, k, qty);
      UpdateKeySnoc(c, k, qty);
      var u := UpdateKey(p, k, qty);
      var e := Updated(last, k, qty);
      Snoc(u, e);
      forall i | 0 <= i < |c|
        ensures UpdateKey(c, k, qty)[i].key == c[i].key
      {
        if i < |p| {
          assert (u + [e])[i] == u[i] && c[i] == p[i];
        }
      }
    }
  }

  lemma {:induction false} UpdateKeyMap(c: Cart, k: string, qty: int)
    requires ValidCart(c)
    ensures ToMap(UpdateKey(c, k, qty)) ==
      if k in ToMap(c) then ToMap(c)[k := ToMap(c)[k].(qty := qty)] else ToMap(c)
  {
    if c != [] {
      var p := c[..|c| - 1];
      var last := c[|c| - 1];
      UpdateKeyMap(p, k, qty);
      UpdateKeySnoc(c, k, qty);
      Snoc(UpdateKey(p, k, qty), Updated(last, k, qty));
      var mp := ToMap(p);
      if last.key == k {
        WriteTwice(mp, k, last.item, last.item.(qty := qty));
      } else if k in mp {
        WriteCommute(mp, k, mp[k].(qty := qty), last.key, last.item);
      }
    }
  }

  /** A second write under a key replaces the first. */
  lemma WriteTwice(m: map<string, Item>, k: string, v: Item, w: Item)
    ensures m[k := v][k := w] == m[k := w]
  {
  }

  /** Writes under different keys commute. */
  lemma WriteCommute(m: map<string, Item>, k: string, v: Item, j: string, w: Item)
    requires j != k
    ensures m[k := v][j := w] == m[j := w][k := v]
  {
  }

  lemma {:induction false} UpdateKeyLen(c: Cart, k: string, qty: int)
    requires ValidCart(c)
    ensures Len(UpdateKey(c, k, qty)) == Len(c) + (QtyAfter(ToMap(c), k, qty) - QtyAt(ToMap(c), k))
  {
    if c != [] {
      var p := c[..|c| - 1];
      var last := c[|c| - 1];
      UpdateKeyLen(p, k, qty);
      LastShare(c, k);
      UpdateKeySnoc(c, k, qty);
      Snoc(UpdateKey(p, k, qty), Updated(last, k, qty));
    }
  }

  /** The quantity under `k` once updated: `qty` when present, zero when absent. */
  function QtyAfter(m: map<string, Item>, k: string, qty: int): int {
    if k in m then qty else 0
  }

  /** How much `UpdateKey` moves the total: the new quantity less the old,
      at the stored price, for a key that is there. */
  function UpdateDelta(m: map<string, Item>, k: string, qty: int): real {
    if k in m then m[k].price * (qty - m[k].qty) as real else 0.0
  }

  lemma {:induction false} UpdateKeyTotal(c: Cart, k: string, qty: int)
    requires ValidCart(c)
    ensures Total(UpdateKey(c, k, qty)) == Total(c) + UpdateDelta(ToMap(c), k, qty)
  {
    if c != [] {
      var p := c[..|c| - 1];
      var last := c[|c| - 1];
      UpdateKeyTotal(p, k, qty);
      UpdateKeySnoc(c, k, qty);
      Snoc(UpdateKey(p, k, qty), Updated(last, k, qty));
      DeltaStep(c, k, qty);
    }
  }

  /** The last entry's share of the change in the total. */
  lemma DeltaStep(c: Cart, k: string, qty: int)
    requires ValidCart(c) && c != []
    ensures var p := c[..|c| - 1]; var last := c[|c| - 1];
      LineCost(Updated(last, k, qty)) + UpdateDelta(ToMap(p), k, qty)
        == LineCost(last) + UpdateDelta(ToMap(c), k, qty)
  {
    var p := c[..|c| - 1];
    var last := c[|c| - 1];
    var mp := ToMap(p);
    assert ToMap(c) == mp[last.key := last.item];
    if last.key == k {
      assert k !in mp;
      Distribute(last.item.price, last.item.qty, qty);
    }
  }

  lemma Distribute(price: real, before: int, after: int)
    ensures price * after as real == price * before as real + price * (after - before) as real
  {
  }

  lemma UpdateKeySpec(c: Cart, k: string, qty: int)
    requires ValidCart(c)
    ensures ToMap(UpdateKey(c, k, qty)) ==
      if k in ToMap(c) then ToMap(c)[k := ToMap(c)[k].(qty := qty)] else ToMap(c)
    ensures Len(UpdateKey(c, k, qty)) == Len(c) + (if k in ToMap(c) then qty - ToMap(c)[k].qty else 0)
    ensures Total(UpdateKey(c, k, qty)) == Total(c) +
      (if k in ToMap(c) then ToMap(c)[k].price * (qty - ToMap(c)[k].qty) as real else 0.0)
  {
    UpdateKeyMap(c, k, qty);
    UpdateKeyLen(c, k, qty);
    UpdateKeyTotal(c, k, qty);
  }

  lemma {:induction false} UpdateValid(c: Cart, k: string, qty: int)
    requires ValidCart(c)
    ensures ValidCart(UpdateKey(c, k, qty))
  {
    if c != [] {
      var p := c[..|c| - 1];
      var last := c[|c| - 1];
      UpdateValid(p, k, qty);
      UpdateKeyKeys(p, k, qty);
      UpdateKeySnoc(c, k, qty);
      Snoc(UpdateKey(p, k, qty), Updated(last, k, qty));
    }
  }

  /** `update` overwrites the quantity of an existing entry and nothing else:
      price and shop stay, no key is ever inserted, an absent id is a no-op. */
  lemma UpdateSpec(c: Cart, pid: nat, qty: int)
    requires ValidCart(c)
    ensures ValidCart(Update(c, pid, qty))
    ensures ToMap(Update(c, pid, qty)).Keys == ToMap(c).Keys
    ensures KeyOf(pid) in ToMap(c) ==>
      ToMap(Update(c, pid, qty))[KeyOf(pid)] == Item(qty, ToMap(c)[KeyOf(pid)].price, ToMap(c)[KeyOf(pid)].shopSlug)
    ensures forall k :: k in ToMap(c) && k != KeyOf(pid) ==> ToMap(Update(c, pid, qty))[k] == ToMap(c)[k]
    ensures Len(Update(c, pid, qty)) == Len(c) + (if KeyOf(pid) in ToMap(c) then qty - ToMap(c)[KeyOf(pid)].qty else 0)
    ensures Total(Update(c, pid, qty)) == Total(c) +
      (if KeyOf(pid) in ToMap(c) then ToMap(c)[KeyOf(pid)].price * (qty - ToMap(c)[KeyOf(pid)].qty) as real else 0.0)
  {
    var k := KeyOf(pid);
    UpdateValid(c, k, qty);
    UpdateKeyKeys(c, k, qty);
    UpdateKeyLen(c, k, qty);
    UpdateKeyTotal(c, k, qty);
    UpdateKeyMap(c, k, qty);
  }

  /** The cart-view scenario: add 2 of a product at 10, update to 3, then delete:
      length 3 and total 30 after the update, 0 and 0 after the delete. */
  lemma AddUpdateDeleteScenario(pid: nat, shopSlug: string)
    ensures var c1 := Add([], pid, 10.0, shopSlug, 2);
            var c2 := Update(c1, pid, 3);
            var c3 := Delete(c2, pid);
            Len(c1) == 2 && Len(c2) == 3 && Total(c2) == 30.0 && c3 == [] && Len(c3) == 0 && Total(c3) == 0.0
  {
    var k := KeyOf(pid);
    var c1 := Add([], pid, 10.0, shopSlug, 2);
    assert c1 == [Entry(k, Item(2, 10.0, shopSlug))];
    assert c1[..0] == [];
    assert Len(c1) == Len([]) + 2;
    var c2 := Update(c1, pid, 3);
    assert c2 == UpdateKey([], k, 3) + [Entry(k, Item(3, 10.0, shopSlug))];
    assert c2 == [Entry(k, Item(3, 10.0, shopSlug))];
    assert c2[..0] == [];
    assert Len(c2) == Len([]) + 3;
    assert Total(c2) == Total([]) + 10.0 * 3 as real;
    assert Delete(c2, pid) == DeleteKey([], k);
  }
}

/** The `cart_items` table as a sequence of lines in insertion order, and the three
    statements the cart controller runs on it: an UPDATE of the quantity of the
    lines of one (user, item), a DELETE of those lines, and the DELETE of a user's
    whole cart that ends a checkout. */
module CartSpec {
  import opened Wrappers
  import opened Seqs
  import opened Shop

  predicate IsLineOf(line: CartLine, user: UserId, item: ItemId)
  {
    line.user == user && line.item == item
  }

  /** At most one line per (user, item). */
  predicate UniqueLines(cart: seq<CartLine>)
  {
    forall i, j :: 0 <= i < j < |cart| ==> !IsLineOf(cart[j], cart[i].user, cart[i].item)
  }

  /** The position of the first line of (user, item), as `SELECT ... WHERE user_id = ?
      AND item_id = ?` finds it; `None` when the user has no line for the item. */
  function LineIndex(cart: seq<CartLine>, user: UserId, item: ItemId): (k: Option<nat>)
    ensures k.Some? ==> k.value < |cart| && IsLineOf(cart[k.value], user, item)
    ensures k.Some? ==> forall i :: 0 <= i < k.value ==> !IsLineOf(cart[i], user, item)
    ensures k.None? <==> forall i :: 0 <= i < |cart| ==> !IsLineOf(cart[i], user, item)
  {
    if cart == [] then None
    else if IsLineOf(cart[0], user, item) then Some(0)
    else
      match LineIndex(cart[1..], user, item)
      case None => None
      case Some(k) => Some(k + 1)
  }

  /** The quantity the user has of the item in the cart, 0 when there is no line. */
  function QuantityIn(cart: seq<CartLine>, user: UserId, item: ItemId): nat
  {
    match LineIndex(cart, user, item)
    case None => 0
    case Some(k) => cart[k].quantity
  }

  /** `UPDATE cart_items SET quantity = ? WHERE user_id = ? AND item_id = ?`. */
  function SetQuantity(cart: seq<CartLine>, user: UserId, item: ItemId, q: nat): (r: seq<CartLine>)
    ensures |r| == |cart|
    ensures forall k :: 0 <= k < |cart| ==> r[k].user == cart[k].user && r[k].item == cart[k].item
    ensures forall k :: 0 <= k < |cart| && !IsLineOf(cart[k], user, item) ==> r[k] == cart[k]
  {
    seq(|cart|, k requires 0 <= k < |cart| =>
      if IsLineOf(cart[k], user, item) then cart[k].(quantity := q) else cart[k])
  }

  /** `DELETE FROM cart_items WHERE user_id = ? AND item_id = ?`. */
  function RemoveLines(cart: seq<CartLine>, user: UserId, item: ItemId): (r: seq<CartLine>)
    ensures IsSubsequence(r, cart)
    ensures forall line :: line in r <==> line in cart && !IsLineOf(line, user, item)
  {
    var keep := (line: CartLine) => !IsLineOf(line, user, item);
    FilterCharacterised(keep, cart);
    Filter(keep, cart)
  }

  /** `DELETE FROM cart_items WHERE user_id = ?`. */
  function ClearCart(cart: seq<CartLine>, user: UserId): (r: seq<CartLine>)
    ensures IsSubsequence(r, cart)
    ensures forall line :: line in r <==> line in cart && line.user != user
  {
    var keep := (line: CartLine) => line.user != user;
    FilterCharacterised(keep, cart);
    Filter(keep, cart)
  }

  /** With unique lines, the line of (user, item) found anywhere is the one `LineIndex` finds. */
  lemma {:induction false} LineIndexOfUnique(cart: seq<CartLine>, user: UserId, item: ItemId, k: nat)
    requires UniqueLines(cart)
    requires k < |cart| && IsLineOf(cart[k], user, item)
    ensures LineIndex(cart, user, item) == Some(k)
  {
  }

  /** Two carts whose lines have the same users and items position by position find
      the same line for every (user, item). */
  lemma {:induction false} SameKeysSameIndex(a: seq<CartLine>, b: seq<CartLine>, user: UserId, item: ItemId)
    requires |a| == |b|
    requires forall k :: 0 <= k < |a| ==> a[k].user == b[k].user && a[k].item == b[k].item
    ensures LineIndex(a, user, item) == LineIndex(b, user, item)
  {
    if a != [] {
      SameKeysSameIndex(a[1..], b[1..], user, item);
    }
  }

  /** The UPDATE by (user, item) changes the quantity of that line to `q`, and nothing
      else: every other (user, item) keeps its quantity and lines stay unique. With
      unique lines it is the update of the single line `LineIndex` finds. */
  lemma {:induction false} SetQuantityEffect(cart: seq<CartLine>, user: UserId, item: ItemId, q: nat)
    requires UniqueLines(cart)
    ensures var r := SetQuantity(cart, user, item, q);
            && UniqueLines(r)
            && (LineIndex(cart, user, item).Some? ==>
                  r == cart[LineIndex(cart, user, item).value := CartLine(user, item, q)])
            && (LineIndex(cart, user, item).None? ==> r == cart)
            && forall u, i :: QuantityIn(r, u, i) ==
                 if u == user && i == item && LineIndex(cart, user, item).Some? then q else QuantityIn(cart, u, i)
  {
    var r := SetQuantity(cart, user, item, q);
    forall u, i ensures QuantityIn(r, u, i) ==
                 if u == user && i == item && LineIndex(cart, user, item).Some? then q else QuantityIn(cart, u, i)
    {
      SameKeysSameIndex(r, cart, u, i);
    }
    match LineIndex(cart, user, item)
    case None =>
      assert r == cart;
    case Some(k) =>
      forall j | 0 <= j < |cart| && j != k ensures !IsLineOf(cart[j], user, item) {
        if IsLineOf(cart[j], user, item) {
          LineIndexOfUnique(cart, user, item, j);
        }
      }
      assert r == cart[k := CartLine(user, item, q)];
  }

  /** Appending a line for an item the user does not have yet keeps the lines unique,
      gives that (user, item) the appended quantity and leaves every other quantity. */
  lemma {:induction false} AppendLineEffect(cart: seq<CartLine>, user: UserId, item: ItemId, q: nat)
    requires UniqueLines(cart) && LineIndex(cart, user, item).None?
    ensures var r := cart + [CartLine(user, item, q)];
            && UniqueLines(r)
            && forall u, i :: QuantityIn(r, u, i) == if u == user && i == item then q else QuantityIn(cart, u, i)
  {
    var r := cart + [CartLine(user, item, q)];
    forall u, i ensures QuantityIn(r, u, i) == if u == user && i == item then q else QuantityIn(cart, u, i)
    {
      AppendIndex(cart, CartLine(user, item, q), u, i);
    }
  }

  lemma {:induction false} AppendIndex(cart: seq<CartLine>, line: CartLine, u: UserId, i: ItemId)
    ensures LineIndex(cart + [line], u, i) ==
              if LineIndex(cart, u, i).Some? then LineIndex(cart, u, i)
              else if IsLineOf(line, u, i) then Some(|cart|) else None
  {
    if cart != [] {
      assert (cart + [line])[1..] == cart[1..] + [line];
      AppendIndex(cart[1..], line, u, i);
    }
  }

  /** A line put in front of unique lines that share none of its keys keeps them unique. */
  lemma {:induction false} ConsKeepsUnique(line: CartLine, rest: seq<CartLine>)
    requires UniqueLines(rest)
    requires forall l <- rest :: !IsLineOf(l, line.user, line.item)
    ensures UniqueLines([line] + rest)
  {
    var s := [line] + rest;
    forall i, j | 0 <= i < j < |s| ensures !IsLineOf(s[j], s[i].user, s[i].item) {
      assert s[j] == rest[j - 1];
      if i > 0 {
        assert s[i] == rest[i - 1];
      }
    }
  }

  /** Deleting lines never makes two lines share a key. */
  lemma {:induction false} FilterKeepsUnique(p: CartLine -> bool, cart: seq<CartLine>)
    requires UniqueLines(cart)
    ensures UniqueLines(Filter(p, cart))
  {
    if cart != [] {
      var tail := cart[1..];
      assert UniqueLines(tail) by {
        forall i, j | 0 <= i < j < |tail| ensures !IsLineOf(tail[j], tail[i].user, tail[i].item) {
          assert tail[i] == cart[i + 1] && tail[j] == cart[j + 1];
        }
      }
      FilterKeepsUnique(p, tail);
      if p(cart[0]) {
        var rest := Filter(p, tail);
        forall l <- rest ensures !IsLineOf(l, cart[0].user, cart[0].item) {
          FilterMembership(p, tail, l);
          var j :| 0 <= j < |tail| && tail[j] == l;
          assert cart[j + 1] == l;
        }
        ConsKeepsUnique(cart[0], rest);
      }
    }
  }

  /** The DELETE by (user, item) removes exactly the lines of that pair: every other line
      stays, in the same order, the pair has no line left, and with unique lines the
      cart is one line shorter when the pair had a line and unchanged otherwise. */
  lemma {:induction false} RemoveLinesEffect(cart: seq<CartLine>, user: UserId, item: ItemId)
    ensures var r := RemoveLines(cart, user, item);
            && (forall l :: l in r <==> l in cart && !IsLineOf(l, user, item))
            && IsSubsequence(r, cart)
            && LineIndex(r, user, item).None?
            && (UniqueLines(cart) ==> UniqueLines(r))
            && (UniqueLines(cart) ==>
                  |r| == if LineIndex(cart, user, item).Some? then |cart| - 1 else |cart|)
  {
    var keep := (line: CartLine) => !IsLineOf(line, user, item);
    var r := Filter(keep, cart);
    forall l ensures l in r <==> l in cart && !IsLineOf(l, user, item) {
      FilterMembership(keep, cart, l);
    }
    FilterIsSubsequence(keep, cart);
    if UniqueLines(cart) {
      FilterKeepsUnique(keep, cart);
      RemoveCount(cart, user, item);
    }
  }

  lemma {:induction false} RemoveCount(cart: seq<CartLine>, user: UserId, item: ItemId)
    requires UniqueLines(cart)
    ensures |RemoveLines(cart, user, item)| == if LineIndex(cart, user, item).Some? then |cart| - 1 else |cart|
  {
    var keep := (line: CartLine) => !IsLineOf(line, user, item);
    if cart == [] {
    } else if LineIndex(cart, user, item).None? {
      FilterAllPass(keep, cart);
    } else {
      var tail := cart[1..];
      assert UniqueLines(tail) by {
        forall i, j | 0 <= i < j < |tail| ensures !IsLineOf(tail[j], tail[i].user, tail[i].item) {
          assert tail[i] == cart[i + 1] && tail[j] == cart[j + 1];
        }
      }
      if IsLineOf(cart[0], user, item) {
        forall j | 0 <= j < |tail| ensures keep(tail[j]) {
          assert tail[j] == cart[j + 1];
        }
        FilterAllPass(keep, tail);
      } else {
        RemoveCount(tail, user, item);
      }
    }
  }

  /** Clearing a user's cart deletes exactly that user's lines: every line of another
      user stays, in the same order, and unique lines stay unique. */
  lemma {:induction false} ClearCartEffect(cart: seq<CartLine>, user: UserId)
    ensures var r := ClearCart(cart, user);
            && (forall l :: l in r <==> l in cart && l.user != user)
            && IsSubsequence(r, cart)
            && (forall i :: LineIndex(r, user, i).None?)
            && (UniqueLines(cart) ==> UniqueLines(r))
  {
    var keep := (line: CartLine) => line.user != user;
    var r := Filter(keep, cart);
    forall l ensures l in r <==> l in cart && l.user != user {
      FilterMembership(keep, cart, l);
    }
    FilterIsSubsequence(keep, cart);
    if UniqueLines(cart) {
      FilterKeepsUnique(keep, cart);
    }
  }
}

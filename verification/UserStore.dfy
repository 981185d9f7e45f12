/** The gift box and the consumable items of a user (internal/store/helpers.go). */
module UserStore {
  import opened Common

  const GIFT_INVENTORY_CAP := 999
  const GOLD_ID := 1
  const STAMINA_GOLD := 120

  datatype Mail = Mail(possessionType: int, possessionId: int, count: int, grantDatetime: int, expiration: int,
                       uuid: string)
  {
    function Key(): (int, int) {
      (possessionType, possessionId)
    }
  }

  class User {
    var consumableItems: map<int, int>
    var notReceived: seq<Mail>
    var giftNotReceiveCount: int
  }

  // ---------------------------------------------------------------------------
  // Gift box
  // ---------------------------------------------------------------------------

  /** The last n elements. */
  function Newest<T>(s: seq<T>, n: nat): seq<T> {
    if |s| <= n then s else s[|s| - n..]
  }

  /** The mails whose key is not among the given ones, in order. */
  function Others(mails: seq<Mail>, keys: set<(int, int)>): seq<Mail> {
    if mails == [] then []
    else
      var last := mails[|mails| - 1];
      Others(mails[..|mails| - 1], keys) + if last.Key() in keys then [] else [last]
  }

  /** The counts of all mails with the key, added up. */
  function KeyTotal(mails: seq<Mail>, key: (int, int)): int {
    if mails == [] then 0
    else
      var last := mails[|mails| - 1];
      KeyTotal(mails[..|mails| - 1], key) + if last.Key() == key then last.count else 0
  }

  lemma {:induction false} OthersAppend(a: seq<Mail>, b: seq<Mail>, keys: set<(int, int)>)
    ensures Others(a + b, keys) == Others(a, keys) + Others(b, keys)
  {
    if b == [] {
      assert a + b == a;
    } else {
      var n := |b| - 1;
      assert (a + b)[..|a + b| - 1] == a + b[..n];
      OthersAppend(a, b[..n], keys);
    }
  }

  lemma {:induction false} KeyTotalAppend(a: seq<Mail>, b: seq<Mail>, key: (int, int))
    ensures KeyTotal(a + b, key) == KeyTotal(a, key) + KeyTotal(b, key)
  {
    if b == [] {
      assert a + b == a;
    } else {
      var n := |b| - 1;
      assert (a + b)[..|a + b| - 1] == a + b[..n];
      KeyTotalAppend(a, b[..n], key);
    }
  }

  /** No mail carries one of the keys. */
  ghost predicate Free(mails: seq<Mail>, keys: set<(int, int)>) {
    forall m :: m in mails ==> m.Key() !in keys
  }

  lemma {:induction false} OthersAreFree(mails: seq<Mail>, keys: set<(int, int)>)
    ensures Free(Others(mails, keys), keys)
  {
    if mails != [] {
      OthersAreFree(mails[..|mails| - 1], keys);
    }
  }

  lemma {:induction false} FreeUnchanged(mails: seq<Mail>, keys: set<(int, int)>)
    requires Free(mails, keys)
    ensures Others(mails, keys) == mails
  {
    if mails != [] {
      var n := |mails| - 1;
      FreeUnchanged(mails[..n], keys);
      assert mails[n] in mails && mails == mails[..n] + [mails[n]];
    }
  }

  lemma {:induction false} FreeTotal(mails: seq<Mail>, keys: set<(int, int)>, key: (int, int))
    requires Free(mails, keys) && key in keys
    ensures KeyTotal(mails, key) == 0
  {
    if mails != [] {
      FreeTotal(mails[..|mails| - 1], keys, key);
      assert mails[|mails| - 1] in mails;
    }
  }

  /** Post one mail; a full box drops its oldest mails to make room. */
  method AddGift(user: User, gift: Mail)
    modifies user`notReceived, user`giftNotReceiveCount
    ensures user.notReceived == Newest(old(user.notReceived) + [gift], GIFT_INVENTORY_CAP)
    ensures user.giftNotReceiveCount == |user.notReceived|
  {
    ghost var before := user.notReceived;
    while |user.notReceived| >= GIFT_INVENTORY_CAP
      invariant |user.notReceived| <= |before|
      invariant user.notReceived == before[|before| - |user.notReceived|..]
      invariant |before| < GIFT_INVENTORY_CAP ==> user.notReceived == before
      invariant |before| >= GIFT_INVENTORY_CAP ==> |user.notReceived| >= GIFT_INVENTORY_CAP - 1
      decreases |user.notReceived|
    {
      user.notReceived := user.notReceived[1..];
    }
    user.notReceived := user.notReceived + [gift];
    user.giftNotReceiveCount := |user.notReceived|;
  }

  /** Mails posted together are stamped 1 ms apart, the first one newest. */
  function Stamped(gifts: seq<Mail>): seq<Mail> {
    seq(|gifts|, i requires 0 <= i < |gifts| =>
      gifts[i].(grantDatetime := gifts[0].grantDatetime - i, expiration := gifts[i].expiration - i))
  }

  lemma NewestTwice<T>(s: seq<T>, x: T, cap: nat)
    requires cap > 0
    ensures Newest(Newest(s, cap) + [x], cap) == Newest(s + [x], cap)
  {
  }

  method AddGiftsOrdered(user: User, gifts: seq<Mail>)
    modifies user`notReceived, user`giftNotReceiveCount
    ensures gifts == [] ==> user.notReceived == old(user.notReceived)
    ensures gifts != [] ==>
      user.notReceived == Newest(old(user.notReceived) + Stamped(gifts), GIFT_INVENTORY_CAP) &&
      user.giftNotReceiveCount == |user.notReceived|
  {
    if |gifts| == 0 {
      return;
    }
    ghost var before := user.notReceived;
    ghost var stamped := Stamped(gifts);
    var baseTime := gifts[0].grantDatetime;
    for i := 0 to |gifts|
      invariant i == 0 ==> user.notReceived == before
      invariant i > 0 ==>
        user.notReceived == Newest(before + stamped[..i], GIFT_INVENTORY_CAP) &&
        user.giftNotReceiveCount == |user.notReceived|
    {
      var gift := gifts[i].(grantDatetime := baseTime - i, expiration := gifts[i].expiration - i);
      AddGift(user, gift);
      assert before + stamped[..i + 1] == (before + stamped[..i]) + [gift];
      if i > 0 { NewestTwice(before + stamped[..i], gift, GIFT_INVENTORY_CAP); }
    }
    assert stamped[..|gifts|] == stamped;
  }

  /** Take the mails with these keys out of the box and add up their counts; the rest stays, in order. */
  method ConsolidateGifts(user: User, keys: set<(int, int)>) returns (pending: map<(int, int), int>)
    modifies user`notReceived
    ensures user.notReceived == Others(old(user.notReceived), keys)
    ensures forall key :: Count(pending, key) == if key in keys then KeyTotal(old(user.notReceived), key) else 0
  {
    ghost var before := user.notReceived;
    pending := map[];
    var kept: seq<Mail> := [];
    for i := 0 to |user.notReceived|
      invariant user.notReceived == before
      invariant kept == Others(before[..i], keys)
      invariant forall key :: Count(pending, key) == if key in keys then KeyTotal(before[..i], key) else 0
    {
      assert before[..i + 1][..i] == before[..i];
      var mail := user.notReceived[i];
      if mail.Key() in keys {
        pending := pending[mail.Key() := Count(pending, mail.Key()) + mail.count];
      } else {
        kept := kept + [mail];
      }
    }
    assert before[..|before|] == before;
    user.notReceived := kept;
  }

  // ---------------------------------------------------------------------------
  // Consumable items
  // ---------------------------------------------------------------------------

  /** Medal variants no shop accepts are remapped to the medal it does. */
  function CanonicalMedal(id: int): int {
    match id
    case 53 => 22
    case 54 => 22
    case 63 => 29
    case 64 => 29
    case 65 => 29
    case _ => id
  }

  predicate IsStamina(id: int) {
    3001 <= id <= 3003
  }

  function Granted(items: map<int, int>, id: int, count: int): map<int, int> {
    var canonical := CanonicalMedal(id);
    if IsStamina(canonical) then items[GOLD_ID := Count(items, GOLD_ID) + count * STAMINA_GOLD]
    else items[canonical := Count(items, canonical) + count]
  }

  /**
   * Where a grant arrives: the medals 53 and 54 as medal 22, the medals 63 to 65
   * as medal 29, each stamina item 3001 to 3003 as 120 of item 1, gold, and
   * everything else as itself. No other balance moves.
   */
  lemma GrantArrives(items: map<int, int>, id: int, count: int, x: int)
    ensures id in {53, 54} ==> Count(Granted(items, id, count), x) == Count(items, x) + if x == 22 then count else 0
    ensures id in {63, 64, 65} ==> Count(Granted(items, id, count), x) == Count(items, x) + if x == 29 then count else 0
    ensures id in {3001, 3002, 3003} ==>
      Count(Granted(items, id, count), x) == Count(items, x) + if x == 1 then 120 * count else 0
    ensures id !in {53, 54, 63, 64, 65, 3001, 3002, 3003} ==>
      Count(Granted(items, id, count), x) == Count(items, x) + if x == id then count else 0
  {
  }

  /** GrantPossession for a consumable item; stamina items become gold. */
  method GrantConsumable(user: User, id: int, count: int)
    modifies user`consumableItems
    ensures user.consumableItems == Granted(old(user.consumableItems), id, count)
  {
    var possessionId := CanonicalMedal(id);
    var amount := count;
    if possessionId == 3001 || possessionId == 3002 || possessionId == 3003 {
      possessionId := GOLD_ID;
      amount := amount * STAMINA_GOLD;
    }
    user.consumableItems := user.consumableItems[possessionId := Count(user.consumableItems, possessionId) + amount];
  }
}

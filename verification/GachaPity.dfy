/** Medals and pity (gacha/handler.go). */
module GachaPity {
  import opened Common
  import opened UserStore

  // Every full hundred medals of the banner counter is exchanged for gift-box mails:
  // stale mails carrying the same items are taken out of the box and folded into the new
  // ones, and the medal item the player sees is drained in step. The results are
  // conservation laws over the whole exchange loop.

  const PITY_MEDALS := 100
  const MEDAL_COUNT_CAP := 9999
  const THIRTY_DAYS_MILLIS := 2592000000

  const TYPE_CONSUMABLE := 6
  const TYPE_PAID_GEM := 11

  const PAID_GEM_KEY := (TYPE_PAID_GEM, 0)
  const MAMA_POINT_KEY := (TYPE_CONSUMABLE, 9001)
  const RESURRECT_MEDAL_KEY := (TYPE_CONSUMABLE, 242)

  const PITY_KEYS: set<(int, int)> := {PAID_GEM_KEY, MAMA_POINT_KEY, RESURRECT_MEDAL_KEY}

  function Payout(key: (int, int)): int {
    if key == PAID_GEM_KEY then 1000
    else if key == MAMA_POINT_KEY then 100
    else if key == RESURRECT_MEDAL_KEY then 10
    else 0
  }

  /** How many exchanges a counter value is worth. */
  function Exchanges(medals: int): nat {
    if medals >= PITY_MEDALS then medals / PITY_MEDALS else 0
  }

  /** Every full hundred is one exchange. */
  lemma ExchangesAre(medals: int, n: nat)
    ensures n == Exchanges(medals) <==> 100 * n <= medals < 100 * n + 100 || (n == 0 && medals < 100)
  {
  }

  /** The consumables after one exchange: up to a hundred medals go, never more than there are. */
  function Drained(items: map<int, int>, medalItemId: int): map<int, int> {
    if medalItemId == 0 then items
    else
      var balance := Min(Count(items, CanonicalMedal(medalItemId)), PITY_MEDALS);
      if balance > 0 then Granted(items, medalItemId, -balance) else items
  }

  function DrainedTimes(items: map<int, int>, medalItemId: int, n: nat): map<int, int> {
    if n == 0 then items else Drained(DrainedTimes(items, medalItemId, n - 1), medalItemId)
  }

  function WithBonus(items: map<int, int>, medalItemId: int, bonus: int): map<int, int> {
    if bonus > 0 && medalItemId != 0 then Granted(items, medalItemId, bonus) else items
  }

  /** A mail that carries `count` of the key, posted as number i of its batch. */
  predicate Carries(mail: Mail, key: (int, int), count: int, now: int, i: nat) {
    mail.Key() == key && mail.count == count &&
    mail.grantDatetime == now - i && mail.expiration == now + THIRTY_DAYS_MILLIS - i
  }

  /** The gift box after n exchanges that started from `before`. */
  ghost predicate PityBox(before: seq<Mail>, n: nat, now: int, after: seq<Mail>) {
    if n == 0 then after == before
    else
      |after| >= 3 &&
      var kept := |after| - 3;
      after[..kept] == Newest(Others(before, PITY_KEYS), GIFT_INVENTORY_CAP - 3) &&
      Carries(after[kept], PAID_GEM_KEY, KeyTotal(before, PAID_GEM_KEY) + n * Payout(PAID_GEM_KEY), now, 0) &&
      Carries(after[kept + 1], MAMA_POINT_KEY, KeyTotal(before, MAMA_POINT_KEY) + n * Payout(MAMA_POINT_KEY), now, 1) &&
      Carries(after[kept + 2], RESURRECT_MEDAL_KEY,
              KeyTotal(before, RESURRECT_MEDAL_KEY) + n * Payout(RESURRECT_MEDAL_KEY), now, 2)
  }

  method NewUuid() returns (s: string)
  {
    s := *;
  }

  /** One pass of the exchange loop over the gift box. */
  method ExchangeMails(user: User, now: int, ghost before: seq<Mail>, ghost n: nat)
    requires PityBox(before, n, now, user.notReceived)
    modifies user`notReceived, user`giftNotReceiveCount
    ensures PityBox(before, n + 1, now, user.notReceived)
    ensures user.giftNotReceiveCount == |user.notReceived|
  {
    ghost var box := user.notReceived;
    var pending := ConsolidateGifts(user, PITY_KEYS);
    var expiry := now + THIRTY_DAYS_MILLIS;
    var gems := NewUuid();
    var points := NewUuid();
    var medals := NewUuid();
    var gifts := [
      Mail(TYPE_PAID_GEM, 0, 1000 + Count(pending, PAID_GEM_KEY), now, expiry, gems),
      Mail(TYPE_CONSUMABLE, 9001, 100 + Count(pending, MAMA_POINT_KEY), now, expiry, points),
      Mail(TYPE_CONSUMABLE, 242, 10 + Count(pending, RESURRECT_MEDAL_KEY), now, expiry, medals)];
    AddGiftsOrdered(user, gifts);
    ExchangedBox(before, n, now, box, Stamped(gifts), user.notReceived);
  }

  /** One payout beside what was pending of each item, posted to the box without the pending mails. */
  lemma ExchangedBox(before: seq<Mail>, n: nat, now: int, box: seq<Mail>, mails: seq<Mail>, after: seq<Mail>)
    requires PityBox(before, n, now, box) && |mails| == 3
    requires Carries(mails[0], PAID_GEM_KEY, Payout(PAID_GEM_KEY) + KeyTotal(box, PAID_GEM_KEY), now, 0)
    requires Carries(mails[1], MAMA_POINT_KEY, Payout(MAMA_POINT_KEY) + KeyTotal(box, MAMA_POINT_KEY), now, 1)
    requires Carries(mails[2], RESURRECT_MEDAL_KEY,
                     Payout(RESURRECT_MEDAL_KEY) + KeyTotal(box, RESURRECT_MEDAL_KEY), now, 2)
    requires after == Newest(Others(box, PITY_KEYS) + mails, GIFT_INVENTORY_CAP)
    ensures PityBox(before, n + 1, now, after)
  {
    PityBoxTotals(before, n, now, box);
    NewestWithThree(Others(box, PITY_KEYS), mails);
  }

  lemma NewestWithThree(kept: seq<Mail>, mails: seq<Mail>)
    requires |mails| == 3
    ensures Newest(kept + mails, GIFT_INVENTORY_CAP) == Newest(kept, GIFT_INVENTORY_CAP - 3) + mails
  {
  }

  /** In the box of n exchanges each item's total is its old one plus n payouts, and the others are the newest kept. */
  lemma PityBoxTotals(before: seq<Mail>, n: nat, now: int, after: seq<Mail>)
    requires PityBox(before, n, now, after)
    ensures forall key :: key in PITY_KEYS ==> KeyTotal(after, key) == KeyTotal(before, key) + n * Payout(key)
    ensures Newest(Others(after, PITY_KEYS), GIFT_INVENTORY_CAP - 3) ==
      Newest(Others(before, PITY_KEYS), GIFT_INVENTORY_CAP - 3)
    ensures n > 0 ==> Others(after, PITY_KEYS) == Newest(Others(before, PITY_KEYS), GIFT_INVENTORY_CAP - 3)
  {
    if n > 0 {
      var kept := |after| - 3;
      var others, mails := after[..kept], after[kept..];
      assert after == others + mails;
      KeptFree(before, GIFT_INVENTORY_CAP - 3);
      OthersAppend(others, mails, PITY_KEYS);
      FreeUnchanged(others, PITY_KEYS);
      ThreeMails(mails);
      forall key | key in PITY_KEYS ensures KeyTotal(after, key) == KeyTotal(before, key) + n * Payout(key) {
        KeyTotalAppend(others, mails, key);
        FreeTotal(others, PITY_KEYS, key);
      }
    }
  }

  lemma KeptFree(before: seq<Mail>, n: nat)
    ensures Free(Newest(Others(before, PITY_KEYS), n), PITY_KEYS)
  {
    OthersAreFree(before, PITY_KEYS);
  }

  lemma ThreeMails(mails: seq<Mail>)
    requires |mails| == 3
    requires mails[0].Key() == PAID_GEM_KEY && mails[1].Key() == MAMA_POINT_KEY && mails[2].Key() == RESURRECT_MEDAL_KEY
    ensures Others(mails, PITY_KEYS) == []
    ensures KeyTotal(mails, PAID_GEM_KEY) == mails[0].count
    ensures KeyTotal(mails, MAMA_POINT_KEY) == mails[1].count
    ensures KeyTotal(mails, RESURRECT_MEDAL_KEY) == mails[2].count
  {
    var a, b := mails[..2], mails[..1];
    assert mails[..2][..1] == b && b[..0] == [];
    assert KeyTotal(b[..0], PAID_GEM_KEY) == 0;
    assert KeyTotal(b[..0], MAMA_POINT_KEY) == 0;
    assert KeyTotal(b[..0], RESURRECT_MEDAL_KEY) == 0;
    assert forall key ::
      KeyTotal(b, key) == KeyTotal(b[..0], key) + if mails[0].Key() == key then mails[0].count else 0;
    assert forall key :: KeyTotal(a, key) == KeyTotal(b, key) + if mails[1].Key() == key then mails[1].count else 0;
    assert Others(b, PITY_KEYS) == [];
    assert a[..1] == b && a[1] == mails[1];
    assert Others(a, PITY_KEYS) == Others(b, PITY_KEYS) + [];
  }

  /** Take up to a hundred of the medal item, never more than the balance. */
  method DrainMedals(user: User, medalItemId: int)
    modifies user`consumableItems
    ensures user.consumableItems == Drained(old(user.consumableItems), medalItemId)
  {
    if medalItemId != 0 {
      var balance := Count(user.consumableItems, CanonicalMedal(medalItemId));
      if balance > PITY_MEDALS {
        balance := PITY_MEDALS;
      }
      if balance > 0 {
        GrantConsumable(user, medalItemId, -balance);
      }
    }
  }

  /** Lines 107-188 of HandleDraw: the bonus, the exchange loop and the cap. */
  method SettleMedals(user: User, medalCount: int, gachaMedalId: int, medalItemId: int, drawCount: int, now: int)
    returns (medals: int, medalBonus: int)
    modifies user
    ensures gachaMedalId == 0 ==>
      medals == medalCount && medalBonus == 0 &&
      user.consumableItems == old(user.consumableItems) && user.notReceived == old(user.notReceived) &&
      user.giftNotReceiveCount == old(user.giftNotReceiveCount)
    ensures gachaMedalId != 0 ==>
      var n := Exchanges(medalCount + drawCount);
      medalBonus == drawCount && medals == medalCount + drawCount - PITY_MEDALS * n &&
      PityBox(old(user.notReceived), n, now, user.notReceived) &&
      user.consumableItems ==
        DrainedTimes(WithBonus(old(user.consumableItems), medalItemId, drawCount), medalItemId, n) &&
      user.giftNotReceiveCount == if n > 0 then |user.notReceived| else old(user.giftNotReceiveCount)
  {
    medals, medalBonus := medalCount, 0;
    if gachaMedalId == 0 {
      return;
    }
    ghost var box := user.notReceived;
    medalBonus := drawCount;
    medals := medals + medalBonus;
    if medalBonus > 0 && medalItemId != 0 {
      GrantConsumable(user, medalItemId, medalBonus);
    }
    ghost var items := user.consumableItems;
    ghost var n: nat := 0;
    while medals >= PITY_MEDALS
      invariant medals == medalCount + drawCount - PITY_MEDALS * n
      invariant n > 0 ==> medals >= 0
      invariant PityBox(box, n, now, user.notReceived)
      invariant user.consumableItems == DrainedTimes(items, medalItemId, n)
      invariant user.giftNotReceiveCount == if n > 0 then |user.notReceived| else old(user.giftNotReceiveCount)
      decreases medals
    {
      medals := medals - PITY_MEDALS;
      DrainMedals(user, medalItemId);
      ExchangeMails(user, now, box, n);
      n := n + 1;
    }
    assert n == Exchanges(medalCount + drawCount);
    if medals > MEDAL_COUNT_CAP {
      medals := MEDAL_COUNT_CAP;
    }
  }

  // ---------------------------------------------------------------------------
  // Conservation
  // ---------------------------------------------------------------------------

  function MailCount(mails: seq<Mail>, key: (int, int)): nat {
    if mails == [] then 0
    else MailCount(mails[..|mails| - 1], key) + if mails[|mails| - 1].Key() == key then 1 else 0
  }

  lemma {:induction false} FreeHasNoMail(mails: seq<Mail>, keys: set<(int, int)>, key: (int, int))
    requires Free(mails, keys) && key in keys
    ensures MailCount(mails, key) == 0
  {
    if mails != [] {
      FreeHasNoMail(mails[..|mails| - 1], keys, key);
      assert mails[|mails| - 1] in mails;
    }
  }

  /**
   * The exchanges as the player sees them: every pity item's total in the gift
   * box rises by one payout per exchange, whatever stale mails there were, and
   * after at least one exchange there is exactly one mail of each.
   */
  lemma PayoutsConserved(before: seq<Mail>, n: nat, now: int, after: seq<Mail>, key: (int, int))
    requires PityBox(before, n, now, after) && key in PITY_KEYS
    ensures KeyTotal(after, key) == KeyTotal(before, key) + n * Payout(key)
    ensures n > 0 ==> MailCount(after, key) == 1
  {
    PityBoxTotals(before, n, now, after);
    if n > 0 {
      var kept := |after| - 3;
      assert after == after[..kept] + after[kept..];
      KeptFree(before, GIFT_INVENTORY_CAP - 3);
      FreeHasNoMail(after[..kept], PITY_KEYS, key);
      MailCountAppend(after[..kept], after[kept..], key);
      OneOfThree(after[kept..], key);
    }
  }

  /** What n exchanges pay, item by item. */
  lemma PityPays(before: seq<Mail>, n: nat, now: int, after: seq<Mail>)
    requires PityBox(before, n, now, after)
    ensures KeyTotal(after, (11, 0)) == KeyTotal(before, (11, 0)) + 1000 * n
    ensures KeyTotal(after, (6, 9001)) == KeyTotal(before, (6, 9001)) + 100 * n
    ensures KeyTotal(after, (6, 242)) == KeyTotal(before, (6, 242)) + 10 * n
  {
    PityBoxTotals(before, n, now, after);
    forall key | key in PITY_KEYS ensures n * Payout(key) == Payout(key) * n {
    }
  }

  /** The mails of an exchange, at the end of the box, last thirty days from their stamp. */
  lemma PityMailsLast(before: seq<Mail>, n: nat, now: int, after: seq<Mail>, i: nat)
    requires n > 0 && PityBox(before, n, now, after) && |after| - 3 <= i < |after|
    ensures after[i].grantDatetime == now - (i - (|after| - 3))
    ensures after[i].expiration == after[i].grantDatetime + 30 * 24 * 3600 * 1000
    ensures after[i].Key() == (if i == |after| - 3 then (11, 0) else if i == |after| - 2 then (6, 9001) else (6, 242))
  {
    var kept := |after| - 3;
    assert i == kept || i == kept + 1 || i == kept + 2;
  }

  lemma {:induction false} MailCountAppend(a: seq<Mail>, b: seq<Mail>, key: (int, int))
    ensures MailCount(a + b, key) == MailCount(a, key) + MailCount(b, key)
  {
    if b == [] {
      assert a + b == a;
    } else {
      assert (a + b)[..|a + b| - 1] == a + b[..|b| - 1];
      MailCountAppend(a, b[..|b| - 1], key);
    }
  }

  lemma OneOfThree(mails: seq<Mail>, key: (int, int))
    requires |mails| == 3 && key in PITY_KEYS
    requires mails[0].Key() == PAID_GEM_KEY && mails[1].Key() == MAMA_POINT_KEY && mails[2].Key() == RESURRECT_MEDAL_KEY
    ensures MailCount(mails, key) == 1
  {
    assert mails[..2][..1] == mails[..1] && mails[..1][..0] == [];
    assert MailCount(mails[..1], key) == if mails[0].Key() == key then 1 else 0;
    assert MailCount(mails[..2], key) == MailCount(mails[..1], key) + if mails[1].Key() == key then 1 else 0;
  }

  /** The other mails survive, in order, exactly when the three new ones fit beside them; the oldest go first. */
  lemma OtherMailsKept(before: seq<Mail>, n: nat, now: int, after: seq<Mail>)
    requires PityBox(before, n, now, after)
    ensures Others(after, PITY_KEYS) == Others(before, PITY_KEYS) <==>
      n == 0 || |Others(before, PITY_KEYS)| <= 996
    ensures n > 0 ==> |after| <= 999
  {
    PityBoxTotals(before, n, now, after);
  }

  /** A gift box with room for two mails of other kinds. */
  function CrowdedBox(): seq<Mail> {
    seq(GIFT_INVENTORY_CAP - 2, i => Mail(1, 1, 1, i, 0, ""))
  }

  /** One exchange posts three mails to it, and its oldest mail is gone. */
  lemma CrowdedBoxDropsOldest(now: int) returns (after: seq<Mail>)
    ensures PityBox(CrowdedBox(), 1, now, after) && Others(after, PITY_KEYS) == CrowdedBox()[1..]
  {
    var before := CrowdedBox();
    FreeUnchanged(before, PITY_KEYS);
    var expiry := now + THIRTY_DAYS_MILLIS;
    after := before[1..] + [
      Mail(TYPE_PAID_GEM, 0, KeyTotal(before, PAID_GEM_KEY) + 1000, now, expiry, ""),
      Mail(TYPE_CONSUMABLE, 9001, KeyTotal(before, MAMA_POINT_KEY) + 100, now - 1, expiry - 1, ""),
      Mail(TYPE_CONSUMABLE, 242, KeyTotal(before, RESURRECT_MEDAL_KEY) + 10, now - 2, expiry - 2, "")];
    PityBoxTotals(before, 1, now, after);
  }

  /** Draining only ever touches the medal item, and stops at zero. */
  lemma {:induction false} DrainedBalance(items: map<int, int>, medalItemId: int, n: nat)
    requires medalItemId != 0 && !IsStamina(CanonicalMedal(medalItemId))
    ensures
      var id := CanonicalMedal(medalItemId);
      var balance := Count(items, id);
      Count(DrainedTimes(items, medalItemId, n), id) ==
        (if balance <= 0 then balance else balance - Min(balance, 100 * n)) &&
      forall x :: x != id ==> Count(DrainedTimes(items, medalItemId, n), x) == Count(items, x)
  {
    if n > 0 {
      DrainedBalance(items, medalItemId, n - 1);
    }
  }

  /** The medal item after the bonus and n exchanges. */
  function SettledItems(items: map<int, int>, medalItemId: int, bonus: int, n: nat): map<int, int> {
    DrainedTimes(WithBonus(items, medalItemId, bonus), medalItemId, n)
  }

  /** A banner without a medal item moves no balance, and neither does a draw of nothing that exchanges nothing. */
  lemma {:induction false} NothingSettled(items: map<int, int>, medalItemId: int, bonus: int, n: nat)
    ensures SettledItems(items, 0, bonus, n) == items
    ensures bonus <= 0 ==> SettledItems(items, medalItemId, bonus, 0) == items
  {
    if n > 0 {
      NothingSettled(items, medalItemId, bonus, n - 1);
    }
  }

  /** Nothing is drained from a balance that is not positive. */
  lemma {:induction false} NothingDrained(items: map<int, int>, medalItemId: int, n: nat)
    requires Count(items, CanonicalMedal(medalItemId)) <= 0
    ensures DrainedTimes(items, medalItemId, n) == items
  {
    if n > 0 {
      NothingDrained(items, medalItemId, n - 1);
    }
  }

  ghost predicate DrainsExactly(items: map<int, int>, medalItemId: int, bonus: int, n: nat) {
    var id := CanonicalMedal(medalItemId);
    var balance := Count(items, id) + bonus;
    Count(SettledItems(items, medalItemId, bonus, n), id) == balance - Min(balance, 100 * n)
  }

  /**
   * The medal item ends at its old balance plus the bonus, less a hundred per
   * exchange while it lasts. This is so for every balance and bonus exactly
   * when the medal item is not a stamina item, which would be paid in gold.
   */
  lemma DrainExactIffNotStamina(medalItemId: int)
    requires medalItemId != 0
    ensures !IsStamina(CanonicalMedal(medalItemId)) <==>
      forall items: map<int, int>, bonus: nat, n: nat | Count(items, CanonicalMedal(medalItemId)) >= 0 ::
        DrainsExactly(items, medalItemId, bonus, n)
  {
    var id := CanonicalMedal(medalItemId);
    if IsStamina(id) {
      var items: map<int, int> := map[];
      assert SettledItems(items, medalItemId, 1, 0) == Granted(items, medalItemId, 1);
      assert !DrainsExactly(items, medalItemId, 1, 0);
    } else {
      forall items: map<int, int>, bonus: nat, n: nat | Count(items, id) >= 0
        ensures DrainsExactly(items, medalItemId, bonus, n)
      {
        DrainedBalance(WithBonus(items, medalItemId, bonus), medalItemId, n);
      }
    }
  }

  /** With stamina item 3001 as the medal, a bonus of one medal is 120 gold. */
  lemma StaminaMedalIsGold()
    ensures SettledItems(map[], 3001, 1, 0) == map[GOLD_ID := STAMINA_GOLD] && !DrainsExactly(map[], 3001, 1, 0)
  {
    assert SettledItems(map[], 3001, 1, 0) == Granted(map[], 3001, 1);
  }

  /** A counter in step with the medal item stays in step through a draw. */
  lemma CounterAndItemInStep(items: map<int, int>, medalItemId: int, medalCount: nat, drawCount: nat)
    requires medalItemId != 0 && !IsStamina(CanonicalMedal(medalItemId))
    requires Count(items, CanonicalMedal(medalItemId)) == medalCount
    ensures
      var n := Exchanges(medalCount + drawCount);
      Count(SettledItems(items, medalItemId, drawCount, n), CanonicalMedal(medalItemId)) ==
        medalCount + drawCount - 100 * n < 100
  {
    var n := Exchanges(medalCount + drawCount);
    DrainedBalance(WithBonus(items, medalItemId, drawCount), medalItemId, n);
  }
}

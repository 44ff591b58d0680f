/** controllers/PaymentController.js, purchaseService: a payment whose status was fetched credits the
    buyer with one point per 5 units paid and renews or adds the bought subscription.
    Users are keyed by id; the clock is the parameter `now` (epoch ms). */
module Purchase {
  import opened Wrappers
  import opened Accounts

  /** Thirty days in milliseconds: 30 * 24 * 60 * 60 * 1000. */
  const ThirtyDays: int := 2592000000

  /** The product whose new subscription carries plan and quiz points. */
  const AiProduct: string := "ai"

  /** `Math.floor(amount / 5)`: the largest p with 5p not above the amount. */
  function PointsEarned(amount: int): (p: int)
    ensures p * 5 <= amount < p * 5 + 5
    ensures amount >= 0 ==> p >= 0
  {
    amount / 5
  }

  /** `subscription.find(sub => sub.title === product)`: the first entry whose title is the
      product, an absent title matching an absent product. */
  function FindTitle(subs: seq<Subscription>, product: Option<string>): (r: Option<nat>)
    ensures r.Some? ==> r.value < |subs| && subs[r.value].title == product
    ensures r.Some? ==> forall j :: 0 <= j < r.value ==> subs[j].title != product
    ensures r.None? <==> forall j :: 0 <= j < |subs| ==> subs[j].title != product
  {
    if |subs| == 0 then None
    else if subs[0].title == product then Some(0)
    else match FindTitle(subs[1..], product)
      case None => None
      case Some(i) => Some(i + 1)
  }

  /** The entry pushed for a product the user does not have yet: active, expiring in thirty
      days, with plan and quiz points only for the "ai" product and no speed-reading points. */
  function NewSubscription(product: Option<string>, planPoint: Option<int>, quizPoint: Option<int>, now: int)
    : (s: Subscription)
    ensures s.title == product && s.isActive == Some(true) && s.expiresAt == Some(now + ThirtyDays)
    ensures s.speedReadingPoint == None
    ensures product == Some(AiProduct) ==> s.planPoint == planPoint && s.quizPoint == quizPoint
    ensures product != Some(AiProduct) ==> s.planPoint == None && s.quizPoint == None
  {
    if product == Some(AiProduct) then Subscription(product, Some(true), Some(now + ThirtyDays), planPoint, quizPoint, None)
    else Subscription(product, Some(true), Some(now + ThirtyDays), None, None, None)
  }

  /** The subscription list after the purchase: the first entry with the product's title
      moves its expiry to thirty days from now, otherwise one new entry is appended. */
  function PurchasedSubscriptions(subs: seq<Subscription>, product: Option<string>, planPoint: Option<int>,
                                  quizPoint: Option<int>, now: int): (r: seq<Subscription>)
    ensures FindTitle(subs, product).Some? ==>
      var i := FindTitle(subs, product).value;
      |r| == |subs| && r[i] == subs[i].(expiresAt := Some(now + ThirtyDays))
      && forall j :: 0 <= j < |subs| && j != i ==> r[j] == subs[j]
    ensures FindTitle(subs, product).None? ==>
      |r| == |subs| + 1 && r[..|subs|] == subs && r[|subs|] == NewSubscription(product, planPoint, quizPoint, now)
  {
    match FindTitle(subs, product)
    case Some(i) => subs[i := subs[i].(expiresAt := Some(now + ThirtyDays))]
    case None => subs + [NewSubscription(product, planPoint, quizPoint, now)]
  }

  /** The user documents after purchaseService: an unknown user makes it throw, which it
      catches and logs, so nothing changes. */
  function PurchaseSpec(users: map<string, User>, userId: string, product: Option<string>, planPoint: Option<int>,
                        quizPoint: Option<int>, amount: int, now: int): (r: map<string, User>)
    ensures r.Keys == users.Keys
    ensures forall id :: id in users && id != userId ==> r[id] == users[id]
    ensures userId !in users ==> r == users
    ensures userId in users ==>
      && r[userId].points == users[userId].points + PointsEarned(amount)
      && r[userId].speedReadingSessions == users[userId].speedReadingSessions
      && r[userId].books == users[userId].books
      && r[userId].subscription == PurchasedSubscriptions(users[userId].subscription, product, planPoint, quizPoint, now)
  {
    if userId !in users then users
    else
      var u := users[userId];
      users[userId := u.(points := u.points + PointsEarned(amount),
                         subscription := PurchasedSubscriptions(u.subscription, product, planPoint, quizPoint, now))]
  }

  // ---------------------------------------------------------------- properties

  /** A product already subscribed to only has its expiry moved: no entry is added and no
      other field of that entry, nor any other entry, changes. */
  lemma RenewalOnlyMovesExpiry(subs: seq<Subscription>, product: Option<string>, planPoint: Option<int>,
                               quizPoint: Option<int>, now: int, j: nat)
    requires j < |subs| && subs[j].title == product
    ensures var r := PurchasedSubscriptions(subs, product, planPoint, quizPoint, now);
            var i := FindTitle(subs, product).value;
            && i <= j && |r| == |subs|
            && r[i].title == subs[i].title && r[i].isActive == subs[i].isActive
            && r[i].planPoint == subs[i].planPoint && r[i].quizPoint == subs[i].quizPoint
            && r[i].speedReadingPoint == subs[i].speedReadingPoint
            && r[i].expiresAt == Some(now + ThirtyDays)
  {
  }

  /** Only the first entry with the title is renewed: a later duplicate keeps its expiry. */
  lemma DuplicateTitleNotRenewed(subs: seq<Subscription>, product: Option<string>, planPoint: Option<int>,
                                 quizPoint: Option<int>, now: int, j: nat, k: nat)
    requires j < k < |subs| && subs[j].title == product && subs[k].title == product
    ensures PurchasedSubscriptions(subs, product, planPoint, quizPoint, now)[k] == subs[k]
  {
  }

  /** After the first purchase of a product the list holds exactly one entry with its title
      more than before. */
  lemma {:induction false} FirstPurchaseAddsOneTitle(subs: seq<Subscription>, product: Option<string>, planPoint: Option<int>,
                                                     quizPoint: Option<int>, now: int)
    requires FindTitle(subs, product).None?
    ensures var r := PurchasedSubscriptions(subs, product, planPoint, quizPoint, now);
            TitleCount(r, product) == TitleCount(subs, product) + 1 == 1
  {
    var r := PurchasedSubscriptions(subs, product, planPoint, quizPoint, now);
    TitleCountAppend(subs, [r[|subs|]], product);
    assert r == subs + [r[|subs|]];
    TitleCountAbsent(subs, product);
    assert [r[|subs|]][1..] == [];
  }

  /** How many entries carry the title. */
  function TitleCount(subs: seq<Subscription>, product: Option<string>): nat {
    if |subs| == 0 then 0 else (if subs[0].title == product then 1 else 0) + TitleCount(subs[1..], product)
  }

  lemma {:induction false} TitleCountAppend(a: seq<Subscription>, b: seq<Subscription>, product: Option<string>)
    ensures TitleCount(a + b, product) == TitleCount(a, product) + TitleCount(b, product)
  {
    if |a| > 0 {
      assert (a + b)[1..] == a[1..] + b;
      TitleCountAppend(a[1..], b, product);
    } else {
      assert a + b == b;
    }
  }

  lemma {:induction false} TitleCountAbsent(a: seq<Subscription>, product: Option<string>)
    requires forall j :: 0 <= j < |a| ==> a[j].title != product
    ensures TitleCount(a, product) == 0
  {
    if |a| > 0 {
      TitleCountAbsent(a[1..], product);
    }
  }

  /** Buying the same product twice adds one entry, not two: the second purchase renews
      the entry the first one appended, and the points of both payments are credited. */
  lemma {:induction false} RepeatPurchaseRenews(users: map<string, User>, userId: string, product: Option<string>,
                                                planPoint: Option<int>, quizPoint: Option<int>,
                                                a1: int, a2: int, t1: int, t2: int)
    requires userId in users && FindTitle(users[userId].subscription, product).None?
    ensures var once := PurchaseSpec(users, userId, product, planPoint, quizPoint, a1, t1);
            var twice := PurchaseSpec(once, userId, product, planPoint, quizPoint, a2, t2);
            var subs := users[userId].subscription;
            && twice[userId].points == users[userId].points + PointsEarned(a1) + PointsEarned(a2)
            && |twice[userId].subscription| == |subs| + 1
            && twice[userId].subscription[..|subs|] == subs
            && twice[userId].subscription[|subs|] == NewSubscription(product, planPoint, quizPoint, t1).(expiresAt := Some(t2 + ThirtyDays))
  {
    var subs := users[userId].subscription;
    var once := PurchaseSpec(users, userId, product, planPoint, quizPoint, a1, t1);
    var s1 := once[userId].subscription;
    assert s1 == subs + [NewSubscription(product, planPoint, quizPoint, t1)];
    FindTitleAppended(subs, NewSubscription(product, planPoint, quizPoint, t1), product);
  }

  /** The first entry with the title is the appended one when the list had none. */
  lemma {:induction false} FindTitleAppended(subs: seq<Subscription>, s: Subscription, product: Option<string>)
    requires FindTitle(subs, product).None? && s.title == product
    ensures FindTitle(subs + [s], product) == Some(|subs|)
  {
    if |subs| > 0 {
      assert (subs + [s])[1..] == subs[1..] + [s];
      FindTitleAppended(subs[1..], s, product);
    } else {
      assert subs + [s] == [s];
    }
  }

  // ---------------------------------------------------------------- the service

  class PurchaseStore {
    var users: map<string, User>

    constructor(initial: map<string, User>)
      ensures users == initial
    {
      users := initial;
    }

    /** `$inc` the points, then renew or push the subscription and save. */
    method PurchaseService(userId: string, product: Option<string>, planPoint: Option<int>, quizPoint: Option<int>,
                           amount: int, now: int)
      modifies this
      ensures users == PurchaseSpec(old(users), userId, product, planPoint, quizPoint, amount, now)
    {
      var pointsEarned := amount / 5;
      if userId !in users {
        return;
      }
      var updatedUser := users[userId];
      updatedUser := updatedUser.(points := updatedUser.points + pointsEarned);
      users := users[userId := updatedUser];
      var existing := FindTitle(updatedUser.subscription, product);
      var subs := updatedUser.subscription;
      if existing.Some? {
        var i := existing.value;
        subs := subs[i := subs[i].(expiresAt := Some(now + 30 * 24 * 60 * 60 * 1000))];
      } else if product == Some(AiProduct) {
        subs := subs + [Subscription(product, Some(true), Some(now + 30 * 24 * 60 * 60 * 1000), planPoint, quizPoint, None)];
      } else {
        subs := subs + [Subscription(product, Some(true), Some(now + 30 * 24 * 60 * 60 * 1000), None, None, None)];
      }
      updatedUser := updatedUser.(subscription := subs);
      users := users[userId := updatedUser];
    }
  }
}

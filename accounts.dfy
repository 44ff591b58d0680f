/** models/user-model.js: the parts of a user document that payments, speed reading and
    the book shelf read and write. Every field of a subscription entry is optional in the
    schema, so each is an `Option`; `points` carries its schema default 0. */
module Accounts {
  import opened Wrappers

  datatype Subscription = Subscription(
    title: Option<string>,
    isActive: Option<bool>,
    expiresAt: Option<int>,
    planPoint: Option<int>,
    quizPoint: Option<int>,
    speedReadingPoint: Option<int>)

  datatype User = User(
    points: int,
    subscription: seq<Subscription>,
    speedReadingSessions: seq<string>,
    books: seq<string>)
}

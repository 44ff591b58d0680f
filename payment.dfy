/** controllers/PaymentController.js, the FreedomPay request signature: the request object
    is flattened into numbered parameter names (makeFlatParamsArray), the names are
    sorted, and the script name, the values in key order and the secret key are joined
    with ';'. That string is what the MD5 digest is taken of; the digest itself is not
    part of this model. */
module Payment {
  import opened Wrappers
  import opened Decimal
  import opened Strings

  /** A request value: already-stringified scalars (`String(value)`, which also covers
      arrays), nested plain objects, and `null`, whose `typeof` is "object" too. */
  datatype Value = Text(text: string) | Object(entries: seq<Entry>) | Null
  datatype Entry = Entry(key: string, value: Value)

  function ValueSize(v: Value): nat
    decreases v, 1
  {
    match v
    case Object(es) => 1 + EntriesSize(es)
    case _ => 1
  }

  function EntriesSize(es: seq<Entry>): nat
    decreases es, 0
  {
    if |es| == 0 then 0 else EntriesSize(es[..|es| - 1]) + ValueSize(es[|es| - 1].value)
  }

  lemma {:induction false} EntrySmaller(es: seq<Entry>, i: nat)
    requires i < |es|
    ensures ValueSize(es[i].value) <= EntriesSize(es)
  {
    if i < |es| - 1 {
      EntrySmaller(es[..|es| - 1], i);
    }
  }

  /** `String(index).padStart(3, "0")`. */
  function IndexSuffix(index: nat): (t: string)
    ensures |t| >= 3 && (index < 1000 ==> |t| == 3)
  {
    ThreeDigits(index);
    PadStart(NatToString(index), 3)
  }

  /** The suffix reads back as the index. */
  lemma SuffixValue(index: nat)
    ensures AllDigits(IndexSuffix(index)) && DigitsValue(IndexSuffix(index)) == index
  {
    PaddedValue(index, 3);
  }

  /** `${parentName}${key}${String(index).padStart(3, "0")}`. */
  function ParamName(parent: string, key: string, index: nat): string {
    parent + key + IndexSuffix(index)
  }

  // ---------------------------------------------------------------- flat parameter objects

  /** A plain JavaScript object of string values: its entries in insertion order. */
  type Params = seq<(string, string)>

  predicate DistinctKeys(p: Params) {
    forall i, j :: 0 <= i < j < |p| ==> p[i].0 != p[j].0
  }

  function KeysOf(p: Params): (ks: seq<string>)
    ensures |ks| == |p| && forall i :: 0 <= i < |p| ==> ks[i] == p[i].0
  {
    if |p| == 0 then [] else [p[0].0] + KeysOf(p[1..])
  }

  /** `obj[k]`, undefined when the key is absent. */
  function Lookup(p: Params, k: string): (r: Option<string>)
    ensures r.None? <==> k !in KeysOf(p)
  {
    if |p| == 0 then None else if p[0].0 == k then Some(p[0].1) else Lookup(p[1..], k)
  }

  lemma {:induction false} LookupAt(p: Params, i: nat)
    requires DistinctKeys(p) && i < |p|
    ensures Lookup(p, p[i].0) == Some(p[i].1)
  {
    if i > 0 {
      assert p[0].0 != p[i].0;
      LookupAt(p[1..], i - 1);
    }
  }

  /** `obj[k] = v`: an existing key keeps its place and takes the new value; a new key
      goes to the end. */
  function Put(p: Params, k: string, v: string): (r: Params)
    requires DistinctKeys(p)
    ensures DistinctKeys(r)
    ensures k !in KeysOf(p) ==> r == p + [(k, v)]
    ensures forall i :: 0 <= i < |r| ==> r[i].0 == k || r[i].0 in KeysOf(p)
  {
    if |p| == 0 then [(k, v)]
    else if p[0].0 == k then
      var r := [(k, v)] + p[1..];
      assert forall i :: 0 < i < |r| ==> r[i] == p[i];
      r
    else
      var rest := Put(p[1..], k, v);
      FirstKeyNotLater(p);
      TailKeys(p);
      var r := [p[0]] + rest;
      assert forall i :: 0 < i < |r| ==> r[i] == rest[i - 1];
      r
  }

  lemma FirstKeyNotLater(p: Params)
    requires DistinctKeys(p) && |p| > 0
    ensures p[0].0 !in KeysOf(p[1..])
  {
    forall i | 0 <= i < |p| - 1
      ensures KeysOf(p[1..])[i] != p[0].0
    {
      assert p[1..][i] == p[i + 1];
    }
  }

  lemma TailKeys(p: Params)
    requires |p| > 0
    ensures forall x :: x in KeysOf(p[1..]) ==> x in KeysOf(p)
  {
    forall x | x in KeysOf(p[1..])
      ensures x in KeysOf(p)
    {
      var i :| 0 <= i < |p| - 1 && KeysOf(p[1..])[i] == x;
      assert KeysOf(p)[i + 1] == x;
    }
  }

  lemma {:induction false} PutLookup(p: Params, k: string, v: string, j: string)
    requires DistinctKeys(p)
    ensures Lookup(Put(p, k, v), j) == if j == k then Some(v) else Lookup(p, j)
  {
    if |p| > 0 && p[0].0 != k {
      PutLookup(p[1..], k, v, j);
      assert Put(p, k, v)[1..] == Put(p[1..], k, v);
    }
  }

  /** `{ ...a, ...b }`: b's entries put one by one over a. */
  function Merge(a: Params, b: Params): (r: Params)
    requires DistinctKeys(a) && DistinctKeys(b)
    ensures DistinctKeys(r)
    ensures forall k :: Lookup(r, k) == if Lookup(b, k).Some? then Lookup(b, k) else Lookup(a, k)
    decreases |b|
  {
    if |b| == 0 then a
    else
      assert forall i :: 0 <= i < |b| - 1 ==> b[1..][i].0 != b[0].0;
      FirstKeyNotLater(b);
      var a' := Put(a, b[0].0, b[0].1);
      assert forall k :: Lookup(a', k) == if k == b[0].0 then Some(b[0].1) else Lookup(a, k) by {
        forall k
          ensures Lookup(a', k) == if k == b[0].0 then Some(b[0].1) else Lookup(a, k)
        {
          PutLookup(a, b[0].0, b[0].1, k);
        }
      }
      Merge(a', b[1..])
  }

  /** makeFlatParamsArray as a function of the entries: the i-th entry (1-based index)
      contributes under its numbered name; a `null` value makes `Object.entries` throw. */
  function Flatten(es: seq<Entry>, parent: string): (r: Option<Params>)
    ensures r.Some? ==> DistinctKeys(r.value)
    decreases EntriesSize(es), 1
  {
    if |es| == 0 then Some([])
    else
      EntrySmaller(es, |es| - 1);
      match Flatten(es[..|es| - 1], parent)
      case None => None
      case Some(a) =>
        match Contribution(es[|es| - 1], parent, |es|)
        case None => None
        case Some(b) => Some(Merge(a, b))
  }

  function Contribution(e: Entry, parent: string, index: nat): (r: Option<Params>)
    ensures r.Some? ==> DistinctKeys(r.value)
    decreases ValueSize(e.value), 0
  {
    var name := ParamName(parent, e.key, index);
    match e.value
    case Text(s) => Some([(name, s)])
    case Null => None
    case Object(children) => Flatten(children, name)
  }

  /** The request loop with its running `index`, recursing into nested objects. */
  method MakeFlatParamsArray(params: seq<Entry>, parentName: string) returns (r: Option<Params>)
    ensures r == Flatten(params, parentName)
    decreases EntriesSize(params)
  {
    var flatParams: Params := [];
    var index := 0;
    while index < |params|
      invariant 0 <= index <= |params|
      invariant Flatten(params[..index], parentName) == Some(flatParams)
    {
      var e := params[index];
      FlattenSnoc(params, index, parentName);
      EntrySmaller(params, index);
      index := index + 1;
      var paramName := ParamName(parentName, e.key, index);
      match e.value {
        case Object(children) =>
          var sub := MakeFlatParamsArray(children, paramName);
          if sub.None? {
            PrefixFailure(params, index, parentName);
            return None;
          }
          flatParams := Merge(flatParams, sub.value);
        case Null =>
          PrefixFailure(params, index, parentName);
          return None;
        case Text(s) =>
          MergeSingle(flatParams, paramName, s);
          flatParams := Put(flatParams, paramName, s);
      }
    }
    assert params[..index] == params;
    r := Some(flatParams);
  }

  lemma FlattenSnoc(es: seq<Entry>, n: nat, parent: string)
    requires n < |es|
    ensures Flatten(es[..n + 1], parent)
            == match Flatten(es[..n], parent)
               case None => None
               case Some(a) =>
                 match Contribution(es[n], parent, n + 1)
                 case None => None
                 case Some(b) => Some(Merge(a, b))
  {
    assert es[..n + 1][..n] == es[..n] && es[..n + 1][n] == es[n];
  }

  lemma MergeSingle(a: Params, k: string, v: string)
    requires DistinctKeys(a)
    ensures Merge(a, [(k, v)]) == Put(a, k, v)
  {
    assert [(k, v)][1..] == [];
  }

  /** Once a prefix of the entries fails, the whole object fails. */
  lemma {:induction false} PrefixFailure(es: seq<Entry>, n: nat, parent: string)
    requires n <= |es| && Flatten(es[..n], parent).None?
    ensures Flatten(es, parent).None?
    decreases |es| - n
  {
    if n < |es| {
      assert es[..n + 1][..n] == es[..n];
      PrefixFailure(es, n + 1, parent);
    } else {
      assert es[..n] == es;
    }
  }

  // ---------------------------------------------------------------- flat requests

  predicate DistinctEntryKeys(es: seq<Entry>) {
    forall i, j :: 0 <= i < j < |es| ==> es[i].key != es[j].key
  }

  /** Numbered names are distinct when fewer than 1000 entries share a prefix. */
  lemma NamesDistinct(parent: string, k1: string, i1: nat, k2: string, i2: nat)
    requires i1 < 1000 && i2 < 1000
    ensures ParamName(parent, k1, i1) == ParamName(parent, k2, i2) ==> k1 == k2 && i1 == i2
  {
    var n1, n2 := ParamName(parent, k1, i1), ParamName(parent, k2, i2);
    var t1, t2 := IndexSuffix(i1), IndexSuffix(i2);
    SuffixValue(i1);
    SuffixValue(i2);
    if n1 == n2 {
      assert |n1| == |parent| + |k1| + 3 && |n2| == |parent| + |k2| + 3;
      assert n1[|parent|..|parent| + |k1|] == k1;
      assert n2[|parent|..|parent| + |k2|] == k2;
      assert n1[|parent| + |k1|..] == t1;
      assert n2[|parent| + |k2|..] == t2;
    }
  }

  /** A flat request with distinct field names and fewer than 1000 fields flattens to
      exactly one parameter per field, in field order, none overwritten. */
  lemma {:induction false} FlatRequestOneEntryEach(es: seq<Entry>, parent: string)
    requires |es| < 1000 && DistinctEntryKeys(es) && forall i :: 0 <= i < |es| ==> es[i].value.Text?
    ensures Flatten(es, parent).Some?
    ensures var p := Flatten(es, parent).value;
            && |p| == |es|
            && forall i :: 0 <= i < |es| ==> p[i] == (ParamName(parent, es[i].key, i + 1), es[i].value.text)
  {
    if |es| > 0 {
      var n := |es|;
      var init := es[..n - 1];
      PrefixFlat(es);
      FlatRequestOneEntryEach(init, parent);
      var a := Flatten(init, parent).value;
      var name := ParamName(parent, es[n - 1].key, n);
      var text := es[n - 1].value.text;
      LastNameFresh(es, parent, a);
      AppendFresh(a, name, text);
      FlattenSnoc(es, n - 1, parent);
      assert es[..n] == es;
      assert Contribution(es[n - 1], parent, n) == Some([(name, text)]);
    }
  }

  lemma PrefixFlat(es: seq<Entry>)
    requires |es| > 0 && DistinctEntryKeys(es) && forall i :: 0 <= i < |es| ==> es[i].value.Text?
    ensures var init := es[..|es| - 1];
            DistinctEntryKeys(init) && forall i :: 0 <= i < |init| ==> init[i].value.Text?
  {
    var init := es[..|es| - 1];
    assert forall i :: 0 <= i < |init| ==> init[i] == es[i];
  }

  /** The last field's name is none of the earlier fields' names. */
  lemma LastNameFresh(es: seq<Entry>, parent: string, a: Params)
    requires 0 < |es| < 1000 && DistinctEntryKeys(es)
    requires |a| == |es| - 1 && forall i :: 0 <= i < |a| ==> a[i].0 == ParamName(parent, es[i].key, i + 1)
    ensures ParamName(parent, es[|es| - 1].key, |es|) !in KeysOf(a)
  {
    var n := |es|;
    forall i | 0 <= i < |a|
      ensures KeysOf(a)[i] != ParamName(parent, es[n - 1].key, n)
    {
      NamesDistinct(parent, es[i].key, i + 1, es[n - 1].key, n);
    }
  }

  lemma AppendFresh(a: Params, k: string, v: string)
    requires DistinctKeys(a) && k !in KeysOf(a)
    ensures Merge(a, [(k, v)]) == a + [(k, v)]
  {
    MergeSingle(a, k, v);
  }

  // ---------------------------------------------------------------- sorting and joining

  /** `<` on strings as the default `Array.prototype.sort` compares them: character by
      character, a proper prefix first. */
  predicate Below(a: string, b: string) {
    if |a| == 0 then |b| > 0
    else if |b| == 0 then false
    else if a[0] != b[0] then a[0] < b[0]
    else Below(a[1..], b[1..])
  }

  lemma {:induction false} BelowTotal(a: string, b: string)
    requires a != b
    ensures Below(a, b) != Below(b, a)
  {
    if |a| > 0 && |b| > 0 && a[0] == b[0] {
      assert a == [a[0]] + a[1..] && b == [b[0]] + b[1..];
      BelowTotal(a[1..], b[1..]);
    }
  }

  lemma {:induction false} BelowIrreflexive(a: string)
    ensures !Below(a, a)
  {
    if |a| > 0 {
      BelowIrreflexive(a[1..]);
    }
  }

  lemma {:induction false} BelowTransitive(a: string, b: string, c: string)
    requires Below(a, b) && Below(b, c)
    ensures Below(a, c)
  {
    if |a| > 0 && a[0] == b[0] && b[0] == c[0] {
      BelowTransitive(a[1..], b[1..], c[1..]);
    }
  }

  predicate Ascending(s: seq<string>) {
    forall i :: 0 <= i < |s| - 1 ==> Below(s[i], s[i + 1])
  }

  /** One step of insertion sort. */
  function Insert(k: string, s: seq<string>): (r: seq<string>)
    requires Ascending(s) && k !in s
    ensures multiset(r) == multiset(s) + multiset{k}
    ensures Ascending(r)
    ensures |r| > 0 && (r[0] == k || (|s| > 0 && r[0] == s[0]))
  {
    if |s| == 0 then [k]
    else if Below(k, s[0]) then [k] + s
    else
      BelowTotal(k, s[0]);
      var rest := Insert(k, s[1..]);
      assert s == [s[0]] + s[1..];
      [s[0]] + rest
  }

  /** `Object.keys(flatParams).sort()` on distinct keys. */
  function SortKeys(ks: seq<string>): (r: seq<string>)
    requires NoRepeats(ks)
    ensures multiset(r) == multiset(ks) && Ascending(r)
  {
    if |ks| == 0 then []
    else
      TailNoRepeats(ks);
      var rest := SortKeys(ks[1..]);
      assert ks[0] !in multiset(rest);
      assert ks == [ks[0]] + ks[1..];
      Insert(ks[0], rest)
  }

  lemma {:induction false} AscendingStrictly(s: seq<string>, i: nat, j: nat)
    requires Ascending(s) && i < j < |s|
    ensures Below(s[i], s[j])
    decreases j - i
  {
    if i + 1 < j {
      AscendingStrictly(s, i + 1, j);
      BelowTransitive(s[i], s[i + 1], s[j]);
    }
  }

  lemma AscendingTail(s: seq<string>)
    requires Ascending(s) && |s| > 0
    ensures Ascending(s[1..])
  {
    forall i | 0 <= i < |s| - 2
      ensures Below(s[1..][i], s[1..][i + 1])
    {
      assert s[1..][i] == s[i + 1] && s[1..][i + 1] == s[i + 2];
    }
  }

  /** The first of an ascending list is below every other element. */
  lemma SameFirst(s: seq<string>, t: seq<string>)
    requires Ascending(s) && Ascending(t) && multiset(s) == multiset(t) && |s| > 0
    ensures |t| > 0 && s[0] == t[0]
  {
    assert s[0] in multiset(t) && |t| > 0;
    assert t[0] in multiset(s);
    if s[0] != t[0] {
      var i :| 0 <= i < |t| && t[i] == s[0];
      var j :| 0 <= j < |s| && s[j] == t[0];
      AscendingStrictly(t, 0, i);
      AscendingStrictly(s, 0, j);
      BelowTotal(s[0], t[0]);
      assert false;
    }
  }

  /** Two ascending arrangements of the same keys are the same list. */
  lemma {:induction false} AscendingUnique(s: seq<string>, t: seq<string>)
    requires Ascending(s) && Ascending(t) && multiset(s) == multiset(t)
    ensures s == t
  {
    if |s| > 0 {
      SameFirst(s, t);
      assert s == [s[0]] + s[1..] && t == [t[0]] + t[1..];
      var ms, mt := multiset(s[1..]), multiset(t[1..]);
      assert multiset{s[0]} + ms == multiset{s[0]} + mt by {
        assert multiset(s) == multiset{s[0]} + ms;
        assert multiset(t) == multiset{t[0]} + mt;
      }
      assert ms == mt by {
        forall x
          ensures ms[x] == mt[x]
        {
          assert (multiset{s[0]} + ms)[x] == (multiset{s[0]} + mt)[x];
        }
      }
      AscendingTail(s);
      AscendingTail(t);
      AscendingUnique(s[1..], t[1..]);
    } else {
      assert |multiset(t)| == 0;
    }
  }

  /** `Object.values(sortedParams)`: the value under each key, in the given key order. */
  function ValuesAt(p: Params, keys: seq<string>): (vs: seq<string>)
    requires forall i :: 0 <= i < |keys| ==> Lookup(p, keys[i]).Some?
    ensures |vs| == |keys| && forall i :: 0 <= i < |keys| ==> vs[i] == Lookup(p, keys[i]).value
  {
    if |keys| == 0 then [] else [Lookup(p, keys[0]).value] + ValuesAt(p, keys[1..])
  }

  function SortedKeysOf(p: Params): (ks: seq<string>)
    requires DistinctKeys(p)
    ensures Ascending(ks) && multiset(ks) == multiset(KeysOf(p))
    ensures forall i :: 0 <= i < |ks| ==> Lookup(p, ks[i]).Some?
  {
    assert NoRepeats(KeysOf(p));
    var ks := SortKeys(KeysOf(p));
    assert forall i :: 0 <= i < |ks| ==> Lookup(p, ks[i]).Some? by {
      forall i | 0 <= i < |ks|
        ensures Lookup(p, ks[i]).Some?
      {
        assert ks[i] in multiset(KeysOf(p));
      }
    }
    ks
  }

  /** The string the MD5 signature is computed over. An unset secret joins as "". */
  function SignatureBase(script: string, p: Params, secret: string): string
    requires DistinctKeys(p)
  {
    Join([script] + ValuesAt(p, SortedKeysOf(p)) + [secret], ';')
  }

  // ---------------------------------------------------------------- properties

  /** The pre-image is the script name, one value per flattened parameter in ascending
      key order, and the secret, separated by ';'. */
  lemma SignatureLayout(script: string, p: Params, secret: string)
    requires DistinctKeys(p)
    ensures var ks := SortedKeysOf(p);
            && |ks| == |p|
            && (forall i :: 0 <= i < |p| ==> p[i].0 in ks)
            && (forall i, j :: 0 <= i < j < |ks| ==> Below(ks[i], ks[j]))
            && SignatureBase(script, p, secret)
               == script + ";" + Join(ValuesAt(p, ks) + [secret], ';')
  {
    var ks := SortedKeysOf(p);
    assert |ks| == |multiset(ks)| == |multiset(KeysOf(p))| == |p|;
    forall i | 0 <= i < |p|
      ensures p[i].0 in ks
    {
      assert KeysOf(p)[i] in multiset(KeysOf(p));
    }
    forall i, j | 0 <= i < j < |ks|
      ensures Below(ks[i], ks[j])
    {
      AscendingStrictly(ks, i, j);
    }
    JoinFront(script, ValuesAt(p, ks), secret);
  }

  lemma JoinFront(script: string, vs: seq<string>, secret: string)
    ensures Join([script] + vs + [secret], ';') == script + ";" + Join(vs + [secret], ';')
  {
    assert [script] + vs + [secret] == [script] + (vs + [secret]);
    JoinCons(script, vs + [secret], ';');
  }

  // ---------------------------------------------------------------- the two requests

  /** The pre-image for a request object: None when flattening throws. */
  function PreImage(script: string, request: seq<Entry>, secret: string): (r: Option<string>)
    ensures r.None? <==> Flatten(request, "").None?
  {
    match Flatten(request, "")
    case None => None
    case Some(p) => Some(SignatureBase(script, p, secret))
  }

  /** getSignatureStatus's request, in its field order. */
  function StatusRequest(merchantId: string, paymentId: string): seq<Entry> {
    [Entry("pg_merchant_id", Text(merchantId)), Entry("pg_payment_id", Text(paymentId)),
     Entry("pg_salt", Text("random string"))]
  }

  /** getSignature's request, in its field order; numbers arrive already stringified. */
  function InitRequest(orderId: string, merchantId: string, amount: string, description: string,
                       paymentMethod: string, successUrl: string): seq<Entry> {
    [Entry("pg_order_id", Text(orderId)), Entry("pg_merchant_id", Text(merchantId)),
     Entry("pg_amount", Text(amount)), Entry("pg_description", Text(description)),
     Entry("pg_salt", Text("random string")), Entry("pg_currency", Text("KGS")),
     Entry("pg_payment_method", Text(paymentMethod)), Entry("pg_timeout_after_payment", Text("10")),
     Entry("pg_success_url", Text(successUrl))]
  }

  /** Names of the first nine fields end in 001 to 009. */
  lemma SmallName(parent: string, key: string, index: nat)
    requires 1 <= index <= 9
    ensures ParamName(parent, key, index) == parent + key + "00" + [DigitChar(index)]
  {
    assert NatToString(index) == [DigitChar(index)];
  }

  lemma {:induction false} BelowAt(a: string, b: string, i: nat)
    requires i < |a| && i < |b| && a[..i] == b[..i] && a[i] < b[i]
    ensures Below(a, b)
  {
    if i > 0 {
      assert a[0] == a[..i][0] == b[..i][0] == b[0];
      assert a[1..][..i - 1] == a[..i][1..] && b[1..][..i - 1] == b[..i][1..];
      BelowAt(a[1..], b[1..], i - 1);
    }
  }

  /** Any ascending arrangement of the keys is the one the signature uses. */
  lemma SignatureInOrder(script: string, p: Params, secret: string, ks: seq<string>)
    requires DistinctKeys(p) && Ascending(ks) && multiset(ks) == multiset(KeysOf(p))
    ensures forall i :: 0 <= i < |ks| ==> Lookup(p, ks[i]).Some?
    ensures SignatureBase(script, p, secret) == Join([script] + ValuesAt(p, ks) + [secret], ';')
  {
    AscendingUnique(SortedKeysOf(p), ks);
  }

  /** Two top-level names whose keys first differ at position i compare there. */
  lemma NamesBelow(k1: string, t1: string, k2: string, t2: string, i: nat)
    requires i < |k1| && i < |k2| && k1[..i] == k2[..i] && k1[i] < k2[i]
    ensures Below(k1 + t1, k2 + t2)
  {
    var n1, n2 := k1 + t1, k2 + t2;
    assert n1[..i] == k1[..i];
    assert n2[..i] == k2[..i];
    BelowAt(n1, n2, i);
  }

  predicate NoRepeats(s: seq<string>) {
    forall i, j :: 0 <= i < j < |s| ==> s[i] != s[j]
  }

  lemma AscendingDistinct(s: seq<string>)
    requires Ascending(s)
    ensures NoRepeats(s)
  {
    forall i, j | 0 <= i < j < |s|
      ensures s[i] != s[j]
    {
      AscendingStrictly(s, i, j);
      BelowIrreflexive(s[i]);
    }
  }

  /** Removing one element keeps a list free of repetitions and keeps every other element. */
  lemma RemoveOne(b: seq<string>, j: nat)
    requires NoRepeats(b) && j < |b|
    ensures NoRepeats(b[..j] + b[j + 1..])
    ensures forall x :: x in b && x != b[j] ==> x in b[..j] + b[j + 1..]
    ensures multiset(b) == multiset(b[..j] + b[j + 1..]) + multiset{b[j]}
  {
    RemovedAt(b, j);
    RemoveKeepsNoRepeats(b, j);
    RemoveKeepsOthers(b, j);
    assert b == b[..j] + [b[j]] + b[j + 1..];
  }

  /** Where each element of a list with one element removed came from. */
  lemma RemovedAt(b: seq<string>, j: nat)
    requires j < |b|
    ensures |b[..j] + b[j + 1..]| == |b| - 1
    ensures forall u :: 0 <= u < j ==> (b[..j] + b[j + 1..])[u] == b[u]
    ensures forall u :: j < u < |b| ==> (b[..j] + b[j + 1..])[u - 1] == b[u]
  {
  }

  lemma RemoveKeepsNoRepeats(b: seq<string>, j: nat)
    requires NoRepeats(b) && j < |b|
    ensures NoRepeats(b[..j] + b[j + 1..])
  {
    RemovedAt(b, j);
    var b' := b[..j] + b[j + 1..];
    forall u, v | 0 <= u < v < |b'|
      ensures b'[u] != b'[v]
    {
      var u' := if u < j then u else u + 1;
      var v' := if v < j then v else v + 1;
      assert b'[u] == b[u'] && b'[v] == b[v'];
    }
  }

  lemma RemoveKeepsOthers(b: seq<string>, j: nat)
    requires j < |b|
    ensures forall x :: x in b && x != b[j] ==> x in b[..j] + b[j + 1..]
  {
    RemovedAt(b, j);
    var b' := b[..j] + b[j + 1..];
    forall x | x in b && x != b[j]
      ensures x in b'
    {
      var k :| 0 <= k < |b| && b[k] == x;
      if k < j {
        assert b'[k] == x;
      } else {
        assert b'[k - 1] == x;
      }
    }
  }


  lemma TailNoRepeats(a: seq<string>)
    requires NoRepeats(a) && |a| > 0
    ensures NoRepeats(a[1..])
    ensures forall i :: 1 <= i < |a| ==> a[i] != a[0]
    ensures a[0] !in a[1..]
  {
    forall u, v | 0 <= u < v < |a| - 1
      ensures a[1..][u] != a[1..][v]
    {
      assert a[1..][u] == a[u + 1] && a[1..][v] == a[v + 1];
    }
  }

  /** Two repetition-free lists of the same length, one inside the other, hold the same
      elements. */
  lemma {:induction false} SameElements(a: seq<string>, b: seq<string>)
    requires NoRepeats(a) && NoRepeats(b) && |a| == |b|
    requires forall i :: 0 <= i < |a| ==> a[i] in b
    ensures multiset(a) == multiset(b)
  {
    if |a| > 0 {
      var j :| 0 <= j < |b| && b[j] == a[0];
      RemoveOne(b, j);
      TailNoRepeats(a);
      var b' := b[..j] + b[j + 1..];
      forall i | 0 <= i < |a| - 1
        ensures a[1..][i] in b'
      {
        assert a[1..][i] == a[i + 1] && a[i + 1] in b;
      }
      SameElements(a[1..], b');
      assert a == [a[0]] + a[1..];
    }
  }

  /** getSignature's numbered names in ascending order. */
  function InitSortedNames(): seq<string> {
    ["pg_amount" + IndexSuffix(3), "pg_currency" + IndexSuffix(6), "pg_description" + IndexSuffix(4),
     "pg_merchant_id" + IndexSuffix(2), "pg_order_id" + IndexSuffix(1), "pg_payment_method" + IndexSuffix(7),
     "pg_salt" + IndexSuffix(5), "pg_success_url" + IndexSuffix(9), "pg_timeout_after_payment" + IndexSuffix(8)]
  }

  lemma InitNamesAscending()
    ensures Ascending(InitSortedNames())
  {
    InitNamesAscendingLow();
    InitNamesAscendingHigh();
  }

  lemma InitNamesAscendingLow()
    ensures var ks := InitSortedNames(); forall i :: 0 <= i < 4 ==> Below(ks[i], ks[i + 1])
  {
    var ks := InitSortedNames();
    NamesBelow("pg_amount", IndexSuffix(3), "pg_currency", IndexSuffix(6), 3);
    NamesBelow("pg_currency", IndexSuffix(6), "pg_description", IndexSuffix(4), 3);
    NamesBelow("pg_description", IndexSuffix(4), "pg_merchant_id", IndexSuffix(2), 3);
    NamesBelow("pg_merchant_id", IndexSuffix(2), "pg_order_id", IndexSuffix(1), 3);
    forall i | 0 <= i < 4
      ensures Below(ks[i], ks[i + 1])
    {
      if i == 0 {} else if i == 1 {} else if i == 2 {} else {}
    }
  }

  lemma InitNamesAscendingHigh()
    ensures var ks := InitSortedNames(); forall i :: 4 <= i < 8 ==> Below(ks[i], ks[i + 1])
  {
    var ks := InitSortedNames();
    NamesBelow("pg_order_id", IndexSuffix(1), "pg_payment_method", IndexSuffix(7), 3);
    NamesBelow("pg_payment_method", IndexSuffix(7), "pg_salt", IndexSuffix(5), 3);
    NamesBelow("pg_salt", IndexSuffix(5), "pg_success_url", IndexSuffix(9), 4);
    NamesBelow("pg_success_url", IndexSuffix(9), "pg_timeout_after_payment", IndexSuffix(8), 3);
    forall i | 4 <= i < 8
      ensures Below(ks[i], ks[i + 1])
    {
      if i == 4 {} else if i == 5 {} else if i == 6 {} else {}
    }
  }


  lemma InitNamesSourced(orderId: string, merchantId: string, amount: string, description: string,
                         paymentMethod: string, successUrl: string)
    ensures var es := InitRequest(orderId, merchantId, amount, description, paymentMethod, successUrl);
            var ks := InitSortedNames();
            var from := InitSources();
            forall j :: 0 <= j < 9 ==> ks[j] == ParamName("", es[from[j]].key, from[j] + 1)
  {
  }

  /** For each position in ascending name order, the field of getSignature's request
      that sorts there. */
  function InitSources(): (from: seq<nat>)
    ensures |from| == 9 && forall j :: 0 <= j < 9 ==> from[j] < 9
  {
    [2, 5, 3, 1, 0, 6, 4, 8, 7]
  }

  lemma InitKeysDistinct(orderId: string, merchantId: string, amount: string, description: string,
                         paymentMethod: string, successUrl: string)
    ensures var es := InitRequest(orderId, merchantId, amount, description, paymentMethod, successUrl);
            |es| == 9 && DistinctEntryKeys(es) && forall i :: 0 <= i < 9 ==> es[i].value.Text?
  {
  }

  /** The values under keys that are the keys of given entries, in that order. */
  lemma ValuesFrom(p: Params, ks: seq<string>, from: seq<nat>)
    requires DistinctKeys(p) && |from| == |ks|
    requires forall j :: 0 <= j < |ks| ==> from[j] < |p| && ks[j] == p[from[j]].0
    ensures forall j :: 0 <= j < |ks| ==> Lookup(p, ks[j]).Some?
    ensures var vs := ValuesAt(p, ks); forall j :: 0 <= j < |ks| ==> vs[j] == p[from[j]].1
  {
    forall j | 0 <= j < |ks|
      ensures Lookup(p, ks[j]) == Some(p[from[j]].1)
    {
      LookupAt(p, from[j]);
    }
  }

  /** Parameters whose keys, arranged ascending, are `ks` sign the values in that
      arrangement: position j holds the key and value of entry from[j]. */
  lemma SignatureArranged(script: string, p: Params, secret: string, ks: seq<string>,
                          from: seq<nat>, want: seq<string>)
    requires DistinctKeys(p) && Ascending(ks) && |ks| == |p| && |from| == |ks| && |want| == |ks|
    requires forall j :: 0 <= j < |ks| ==> from[j] < |p| && ks[j] == p[from[j]].0 && want[j] == p[from[j]].1
    ensures SignatureBase(script, p, secret) == Join([script] + want + [secret], ';')
  {
    KeysOfArranged(p, ks, from);
    KeysArranged(KeysOf(p), ks, from);
    SignatureInOrder(script, p, secret, ks);
    ValuesFrom(p, ks, from);
    var vs := ValuesAt(p, ks);
    forall j | 0 <= j < |ks|
      ensures vs[j] == want[j]
    {
    }
    FramedJoin(script, vs, want, secret);
  }

  lemma FramedJoin(script: string, vs: seq<string>, want: seq<string>, secret: string)
    requires |vs| == |want| && forall j :: 0 <= j < |vs| ==> vs[j] == want[j]
    ensures Join([script] + vs + [secret], ';') == Join([script] + want + [secret], ';')
  {
    assert vs == want;
  }

  lemma KeysOfArranged(p: Params, ks: seq<string>, from: seq<nat>)
    requires DistinctKeys(p) && |from| == |ks|
    requires forall j :: 0 <= j < |ks| ==> from[j] < |p| && ks[j] == p[from[j]].0
    ensures NoRepeats(KeysOf(p))
    ensures forall j :: 0 <= j < |ks| ==> from[j] < |KeysOf(p)| && ks[j] == KeysOf(p)[from[j]]
  {
    var keys := KeysOf(p);
    forall u, v | 0 <= u < v < |keys|
      ensures keys[u] != keys[v]
    {
      assert keys[u] == p[u].0 && keys[v] == p[v].0;
    }
  }

  /** Ascending names given by their positions among repetition-free keys are those keys
      rearranged. */
  lemma KeysArranged(keys: seq<string>, ks: seq<string>, from: seq<nat>)
    requires NoRepeats(keys) && Ascending(ks) && |ks| == |keys| && |from| == |ks|
    requires forall j :: 0 <= j < |ks| ==> from[j] < |keys| && ks[j] == keys[from[j]]
    ensures multiset(ks) == multiset(keys)
  {
    AscendingDistinct(ks);
    SameElementsFrom(ks, keys, from);
  }

  /** SameElements, with the position in `b` of each element of `a` given. */
  lemma SameElementsFrom(a: seq<string>, b: seq<string>, from: seq<nat>)
    requires NoRepeats(a) && NoRepeats(b) && |a| == |b| && |from| == |a|
    requires forall j :: 0 <= j < |a| ==> from[j] < |b| && a[j] == b[from[j]]
    ensures multiset(a) == multiset(b)
  {
    forall j | 0 <= j < |a|
      ensures a[j] in b
    {
      assert b[from[j]] == a[j];
    }
    SameElements(a, b);
  }

  /** A flat request's numbered names are pairwise different, so its parameters have
      distinct keys. */
  lemma FlatKeysDistinct(es: seq<Entry>)
    requires |es| < 1000 && DistinctEntryKeys(es) && forall i :: 0 <= i < |es| ==> es[i].value.Text?
    ensures Flatten(es, "").Some? && DistinctKeys(Flatten(es, "").value) && |Flatten(es, "").value| == |es|
    ensures forall i :: 0 <= i < |es| ==> Flatten(es, "").value[i] == (ParamName("", es[i].key, i + 1), es[i].value.text)
  {
    FlatRequestOneEntryEach(es, "");
  }

  lemma PreImageIs(script: string, es: seq<Entry>, secret: string, p: Params)
    requires Flatten(es, "") == Some(p) && DistinctKeys(p)
    ensures PreImage(script, es, secret) == Some(SignatureBase(script, p, secret))
  {
  }

  /** A flat request signs, in ascending name order, the values of the fields that sort
      at each position. */
  lemma PreImageArranged(script: string, es: seq<Entry>, secret: string, ks: seq<string>,
                         from: seq<nat>, want: seq<string>)
    requires |es| < 1000 && DistinctEntryKeys(es) && forall i :: 0 <= i < |es| ==> es[i].value.Text?
    requires Ascending(ks) && |ks| == |es| && |from| == |ks| && |want| == |ks|
    requires forall j :: 0 <= j < |ks| ==> from[j] < |es| && ks[j] == ParamName("", es[from[j]].key, from[j] + 1)
    requires forall j :: 0 <= j < |ks| ==> want[j] == es[from[j]].value.text
    ensures PreImage(script, es, secret) == Some(Join([script] + want + [secret], ';'))
  {
    FlatKeysDistinct(es);
    var p := Flatten(es, "").value;
    SignatureArranged(script, p, secret, ks, from, want);
    PreImageIs(script, es, secret, p);
  }


  lemma InitFieldsPlaced(orderId: string, merchantId: string, amount: string, description: string,
                         paymentMethod: string, successUrl: string)
    ensures var es := InitRequest(orderId, merchantId, amount, description, paymentMethod, successUrl);
            && |es| == 9 && DistinctEntryKeys(es) && (forall i :: 0 <= i < 9 ==> es[i].value.Text?)
            && (forall j :: 0 <= j < 9 ==> InitSortedNames()[j] == ParamName("", es[InitSources()[j]].key, InitSources()[j] + 1))
  {
    InitNamesSourced(orderId, merchantId, amount, description, paymentMethod, successUrl);
    InitKeysDistinct(orderId, merchantId, amount, description, paymentMethod, successUrl);
  }

  lemma InitValuesPlaced(orderId: string, merchantId: string, amount: string, description: string,
                         paymentMethod: string, successUrl: string)
    ensures var es := InitRequest(orderId, merchantId, amount, description, paymentMethod, successUrl);
            var want := [amount, "KGS", description, merchantId, orderId, paymentMethod, "random string", successUrl, "10"];
            forall j :: 0 <= j < 9 ==> want[j] == es[InitSources()[j]].value.text
  {
  }

  /** The createPayment pre-image: the script name, then amount, currency, description,
      merchant id, order id, payment method, salt, success URL and timeout (ascending
      name order, not field order), then the secret. */
  lemma InitPreImage(orderId: string, merchantId: string, amount: string, description: string,
                     paymentMethod: string, successUrl: string, secret: string)
    ensures PreImage("init_payment.php", InitRequest(orderId, merchantId, amount, description, paymentMethod, successUrl), secret)
            == Some(Join(["init_payment.php", amount, "KGS", description, merchantId, orderId, paymentMethod,
                          "random string", successUrl, "10", secret], ';'))
  {
    var es := InitRequest(orderId, merchantId, amount, description, paymentMethod, successUrl);
    var want := [amount, "KGS", description, merchantId, orderId, paymentMethod, "random string", successUrl, "10"];
    InitNamesAscending();
    InitFieldsPlaced(orderId, merchantId, amount, description, paymentMethod, successUrl);
    InitValuesPlaced(orderId, merchantId, amount, description, paymentMethod, successUrl);
    PreImageArranged("init_payment.php", es, secret, InitSortedNames(), InitSources(), want);
    assert ["init_payment.php"] + want + [secret]
        == ["init_payment.php", amount, "KGS", description, merchantId, orderId, paymentMethod,
            "random string", successUrl, "10", secret];
  }
  /** getStatus's numbered names, which are already ascending in field order. */
  function StatusSortedNames(): seq<string> {
    ["pg_merchant_id" + IndexSuffix(1), "pg_payment_id" + IndexSuffix(2), "pg_salt" + IndexSuffix(3)]
  }

  function StatusSources(): (from: seq<nat>)
    ensures |from| == 3 && forall j :: 0 <= j < 3 ==> from[j] < 3
  {
    [0, 1, 2]
  }

  lemma StatusNamesAscending()
    ensures Ascending(StatusSortedNames())
  {
    var ks := StatusSortedNames();
    NamesBelow("pg_merchant_id", IndexSuffix(1), "pg_payment_id", IndexSuffix(2), 3);
    NamesBelow("pg_payment_id", IndexSuffix(2), "pg_salt", IndexSuffix(3), 3);
    forall i | 0 <= i < 2
      ensures Below(ks[i], ks[i + 1])
    {
      if i == 0 {} else {}
    }
  }

  lemma StatusFieldsPlaced(merchantId: string, paymentId: string)
    ensures var es := StatusRequest(merchantId, paymentId);
            && |es| == 3 && DistinctEntryKeys(es) && (forall i :: 0 <= i < 3 ==> es[i].value.Text?)
            && (forall j :: 0 <= j < 3 ==> StatusSortedNames()[j] == ParamName("", es[StatusSources()[j]].key, StatusSources()[j] + 1))
            && (forall j :: 0 <= j < 3 ==> [merchantId, paymentId, "random string"][j] == es[StatusSources()[j]].value.text)
  {
  }

  /** The status pre-image: the script name, merchant id, payment id and salt, which is
      also the field order, then the secret. */
  lemma StatusPreImage(merchantId: string, paymentId: string, secret: string)
    ensures PreImage("get_status3.php", StatusRequest(merchantId, paymentId), secret)
            == Some(Join(["get_status3.php", merchantId, paymentId, "random string", secret], ';'))
  {
    var es := StatusRequest(merchantId, paymentId);
    var want := [merchantId, paymentId, "random string"];
    StatusNamesAscending();
    StatusFieldsPlaced(merchantId, paymentId);
    PreImageArranged("get_status3.php", es, secret, StatusSortedNames(), StatusSources(), want);
    assert ["get_status3.php"] + want + [secret] == ["get_status3.php", merchantId, paymentId, "random string", secret];
  }

}

/** The default message action: building, applying and merging messages. */
module Messages {
  import opened Common
  import opened Upserts

  type Value = Option<Bytes>

  const DELETE: Byte := 0
  const INSERT: Byte := 1
  const UPSERT: Byte := 2

  predicate IsBody(b: Bytes) {
    AllProper(ParseAll(b)) && EncodeAll(ParseAll(b)) == b
  }

  /** A message the action can produce: an overwrite, or the tag of an upsert and encoded
      upserts. */
  predicate WellFormed(m: Bytes) {
    && m != []
    && (m[0] == UPSERT ==> IsBody(m[1..]))
    && m[0] <= UPSERT
  }

  type Message = m: Bytes | WellFormed(m) witness [DELETE]

  function Overwrite(d: Value): (m: Message) {
    match d
    case None => [DELETE]
    case Some(b) => [INSERT] + b
  }

  lemma BodyOf(us: seq<Upsert>)
    ensures IsBody(EncodeAll(us))
  {
    RoundTrip(us);
  }

  function UpsertMsg(us: seq<Upsert>): (m: Message)
    ensures m[0] == UPSERT && ParseAll(m[1..]) == us
  {
    BodyOf(us);
    RoundTrip(us);
    [UPSERT] + EncodeAll(us)
  }

  function Old(d: Value): Bytes {
    match d
    case None => []
    case Some(b) => b
  }

  /** What a message makes of a value. */
  function Apply(m: Message, d: Value): Value {
    if m[0] == DELETE then None
    else if m[0] == INSERT then Some(m[1..])
    else Some(ApplyAll(ParseAll(m[1..]), Old(d)))
  }

  /** What the three kinds of built messages do, whatever was there before. */
  lemma BuiltMessagesAct(data: Bytes, us: seq<Upsert>, d: Value)
    ensures Apply(Overwrite(Some(data)), d) == Some(data)
    ensures Apply(Overwrite(None), d) == None
    ensures Apply(UpsertMsg(us), d).Some? && SetsAll(us, Old(d), Apply(UpsertMsg(us), d).value)
  {
    assert Overwrite(Some(data))[1..] == data;
    ApplyAllSets(us, Old(d));
  }

  /** A message built from no upserts keeps the value, or makes an empty one; one more upsert sets
      exactly its range. */
  lemma OneMoreUpsert(us: seq<Upsert>, u: Upsert, d: Value)
    ensures Apply(UpsertMsg([]), d) == Some(Old(d))
    ensures var before, after := Apply(UpsertMsg(us), d), Apply(UpsertMsg(us + [u]), d);
            before.Some? && after.Some? && Sets(u, before.value, after.value)
  {
    ApplySnoc(us, u, Old(d));
    ApplyOneSets(u, ApplyAll(us, Old(d)));
  }

  function Merge(upper: Message, lower: Message): (m: Bytes) {
    if upper[0] != UPSERT then upper
    else if |upper| <= 1 then lower
    else if lower[0] != UPSERT then
      var d: Value := if lower[0] == DELETE then None else Some(lower[1..]);
      [INSERT] + ApplyAll(ParseAll(upper[1..]), Old(d))
    else lower + upper[1..]
  }

  // ---------------------------------------------------------------- the algebra

  /** The concatenation of two bodies is a body, and it holds first the one, then the other list. */
  lemma BodiesConcat(a: Bytes, b: Bytes)
    requires IsBody(a) && IsBody(b)
    ensures IsBody(a + b) && ParseAll(a + b) == ParseAll(a) + ParseAll(b)
  {
    var us: seq<Upsert>, vs: seq<Upsert> := ParseAll(a), ParseAll(b);
    ParseBody(us, b);
    EncodeConcat(us, vs);
  }

  lemma MergedUpserts(upper: Message, lower: Message)
    requires upper[0] == UPSERT && |upper| > 1 && lower[0] == UPSERT
    ensures Merge(upper, lower)[0] == UPSERT
    ensures Merge(upper, lower)[1..] == lower[1..] + upper[1..]
    ensures IsBody(lower[1..] + upper[1..])
    ensures ParseAll(lower[1..] + upper[1..]) == ParseAll(lower[1..]) + ParseAll(upper[1..])
  {
    BodiesConcat(lower[1..], upper[1..]);
    HeadFirst(lower, upper[1..]);
  }

  lemma MergeWellFormed(upper: Message, lower: Message)
    ensures WellFormed(Merge(upper, lower))
  {
    if upper[0] == UPSERT && |upper| > 1 && lower[0] == UPSERT {
      MergedUpserts(upper, lower);
    }
  }

  /** An upsert without upserts, which turns a missing value into an empty one. */
  predicate Blank(m: Message) {
    m == [UPSERT]
  }

  /** A merged message acts like the lower and then the upper one, unless a blank upsert meets a
      deletion. */
  lemma MergeActs(upper: Message, lower: Message, d: Value)
    ensures WellFormed(Merge(upper, lower))
    ensures Apply(Merge(upper, lower), d) == Apply(upper, Apply(lower, d))
       <==> !(Blank(upper) && lower[0] == DELETE)
  {
    MergeWellFormed(upper, lower);
    if upper[0] == UPSERT && |upper| > 1 && lower[0] == UPSERT {
      MergedUpserts(upper, lower);
      ApplyConcat(ParseAll(lower[1..]), ParseAll(upper[1..]), Old(d));
    }
  }

  /** The failing case: the deletion survives, where the blank upsert would leave an empty value. */
  lemma BlankOverDelete(d: Value)
    ensures Merge([UPSERT], [DELETE]) == [DELETE]
    ensures Apply([DELETE], d) == None
    ensures Apply([UPSERT], Apply([DELETE], d)) == Some([])
  {
    assert [UPSERT][1..] == [];
  }

  lemma MergedData(upper: Message, data: Bytes)
    requires upper[0] == UPSERT && |upper| > 1
    ensures Merge(upper, [INSERT] + data) == [INSERT] + ApplyAll(ParseAll(upper[1..]), data)
  {
    assert ([INSERT] + data)[1..] == data;
  }

  lemma AppendsAssociate(top: Message, mid: Message, low: Message)
    requires top[0] == UPSERT && |top| > 1 && mid[0] == UPSERT && |mid| > 1 && low[0] == UPSERT
    ensures low + (mid + top[1..])[1..] == (low + mid[1..]) + top[1..]
  {
  }

  lemma OverwritesAssociate(top: Message, mid: Message, low: Message)
    requires top[0] == UPSERT && |top| > 1 && mid[0] == UPSERT && |mid| > 1 && low[0] != UPSERT
    requires WellFormed(Merge(top, mid)) && WellFormed(Merge(mid, low))
    ensures Merge(Merge(top, mid), low) == Merge(top, Merge(mid, low))
  {
    var data := Old(if low[0] == DELETE then None else Some(low[1..]));
    MergedUpserts(top, mid);
    ApplyConcat(ParseAll(mid[1..]), ParseAll(top[1..]), data);
    MergedData(top, ApplyAll(ParseAll(mid[1..]), data));
  }

  /** Merging is associative, byte for byte, on every three messages. */
  lemma MergeAssociative(top: Message, mid: Message, low: Message)
    ensures WellFormed(Merge(top, mid)) && WellFormed(Merge(mid, low))
    ensures Merge(Merge(top, mid), low) == Merge(top, Merge(mid, low))
  {
    MergeWellFormed(top, mid);
    MergeWellFormed(mid, low);
    if top[0] == UPSERT && |top| > 1 && mid[0] == UPSERT && |mid| > 1 {
      MergedUpserts(top, mid);
      if low[0] == UPSERT {
        MergedUpserts(mid, low);
        AppendsAssociate(top, mid, low);
      } else {
        OverwritesAssociate(top, mid, low);
      }
    }
  }

  // ----------------------------------------------------------------- the methods

  lemma EmptyRight<T>(s: seq<T>)
    ensures s + [] == s
  {
  }

  lemma Snoc(us: seq<Upsert>, u: Upsert)
    ensures [UPSERT] + EncodeAll(us + [u]) == ([UPSERT] + EncodeAll(us)) + Encode(u)
  {
    EncodeConcat(us, [u]);
    EncodeCons(u, []);
    EmptyRight([u]);
    EmptyRight(Encode(u));
    Regroup([UPSERT], EncodeAll(us), Encode(u));
  }

  lemma {:induction false} BuiltMore(bytes: Bytes, us: seq<Upsert>, i: nat)
    requires i < |us| && bytes == [UPSERT] + EncodeAll(us[..i])
    ensures bytes + Encode(us[i]) == [UPSERT] + EncodeAll(us[..i + 1])
  {
    var done := us[..i];
    Snoc(done, us[i]);
    assert us[..i + 1] == done + [us[i]];
    Regroup([UPSERT], EncodeAll(done), Encode(us[i]));
  }

  method BuildUpsertMsg(us: seq<Upsert>) returns (v: Message)
    ensures v == UpsertMsg(us)
  {
    var bytes: Bytes := [UPSERT];
    for i := 0 to |us|
      invariant bytes == [UPSERT] + EncodeAll(us[..i])
    {
      BuiltMore(bytes, us, i);
      bytes := bytes + Encode(us[i]);
    }
    assert us[..|us|] == us;
    BodyOf(us);
    assert bytes[1..] == EncodeAll(us);
    v := bytes;
  }

  method ApplyUpserts(iter: UpsertIter, old_: Value) returns (d: Value)
    modifies iter
    ensures d == Some(ApplyAll(ParseAll(old(iter.b)), Old(old_)))
    ensures SetsAll(ParseAll(old(iter.b)), Old(old_), d.value)
  {
    ApplyAllSets(ParseAll(iter.b), Old(old_));
    var data := Old(old_);
    var u := iter.Next();
    ghost var from_ := old(iter.b);
    while u.Some?
      invariant ParseOne(from_) == (match u case None => None case Some(item) => Some((item, iter.b)))
      invariant ApplyAll(ParseAll(from_), data) == ApplyAll(ParseAll(old(iter.b)), Old(old_))
      decreases |from_|
    {
      data := ApplyOne(u.value, data);
      from_ := iter.b;
      u := iter.Next();
    }
    d := Some(data);
  }

  method ApplyMsg(m: Message, d: Value) returns (r: Value)
    ensures r == Apply(m, d)
    ensures m[0] == DELETE ==> r == None
    ensures m[0] == INSERT ==> r == Some(m[1..])
    ensures m[0] == UPSERT ==> r.Some? && SetsAll(ParseAll(m[1..]), Old(d), r.value)
  {
    if m[0] == DELETE {
      r := None;
    } else if m[0] == INSERT {
      r := Some(m[1..]);
    } else {
      var iter := new UpsertIter(m[1..]);
      r := ApplyUpserts(iter, d);
    }
  }

  method MergeMsgs(upper: Message, lower: Message) returns (m: Message)
    ensures m == Merge(upper, lower)
    ensures !(Blank(upper) && lower[0] == DELETE) ==>
              forall d :: Apply(m, d) == Apply(upper, Apply(lower, d))
    ensures upper[0] == UPSERT && |upper| > 1 && lower[0] != UPSERT ==>
              m[0] == INSERT && SetsAll(ParseAll(upper[1..]), if lower[0] == DELETE then [] else lower[1..], m[1..])
  {
    MergeWellFormed(upper, lower);
    forall d {
      MergeActs(upper, lower, d);
    }
    if upper[0] != UPSERT {
      m := upper;
    } else if |upper| <= 1 {
      m := lower;
    } else if lower[0] != UPSERT {
      var iter := new UpsertIter(upper[1..]);
      var data := ApplyUpserts(iter, if lower[0] == DELETE then None else Some(lower[1..]));
      m := Overwrite(data);
    } else {
      m := lower + upper[1..];
    }
  }
}

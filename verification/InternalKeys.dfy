/** Internal keys as byte strings: a user key and an eight-byte tag (db/dbformat.h, db/dbformat.cc). */
module InternalKeys {
  import opened Coding
  import opened BlockIterator
  import Keys
  import Bytewise

  const TAG_BYTES: nat := 8
  const MAX_TAG: nat := Keys.PackSequenceAndType(Keys.MAX_SEQUENCE, Keys.TYPE_FOR_SEEK)

  function UserKey(k: seq<Byte>): seq<Byte> {
    if |k| >= TAG_BYTES then k[..|k| - TAG_BYTES] else []
  }

  function TagOf(k: seq<Byte>): nat {
    if |k| >= TAG_BYTES then FromFixed(k[|k| - TAG_BYTES..]) else 0
  }

  /** By user key, then by decreasing tag. */
  function Compare(a: seq<Byte>, b: seq<Byte>): int {
    var r := Bytewise.Compare(UserKey(a), UserKey(b));
    if r != 0 then r
    else if TagOf(a) > TagOf(b) then -1
    else if TagOf(a) < TagOf(b) then 1
    else 0
  }

  lemma CompareOrders(a: seq<Byte>, b: seq<Byte>, c: seq<Byte>)
    ensures Compare(a, b) < 0 && Compare(b, c) < 0 ==> Compare(a, c) < 0
    ensures Compare(a, b) <= 0 && Compare(b, c) < 0 ==> Compare(a, c) < 0
    ensures Compare(a, b) < 0 && Compare(b, c) <= 0 ==> Compare(a, c) < 0
    ensures Compare(a, b) < 0 <==> Compare(b, a) > 0
  {
    hide Bytewise.Compare, UserKey, TagOf;
    var x, y, z := UserKey(a), UserKey(b), UserKey(c);
    Bytewise.CompareOrders(x, y, z);
    Bytewise.CompareOrders(y, x, z);
    Bytewise.RankKeepsOrder(x, y);
    Bytewise.RankKeepsOrder(y, z);
    Bytewise.RankKeepsOrder(x, z);
    Bytewise.RankKeepsOrder(y, x);
  }

  lemma CompareIsOrder()
    ensures IsOrder(Compare)
  {
    hide Compare;
    forall a, b, c | Compare(a, b) < 0 && Compare(b, c) < 0 ensures Compare(a, c) < 0 {
      CompareOrders(a, b, c);
    }
  }

  /** The user key of r lies strictly between the user keys of two others. */
  ghost predicate CutsBetween(start: seq<Byte>, r: seq<Byte>, limit: seq<Byte>) {
    Bytewise.Compare(UserKey(start), UserKey(r)) < 0 && Bytewise.Compare(UserKey(r), UserKey(limit)) < 0
  }

  /** The bytes of an internal key are its user key and eight bytes for its tag. */
  lemma EncodedParts(user: seq<Byte>, s: nat, t: Keys.ValueType)
    requires s <= Keys.MAX_SEQUENCE
    ensures UserKey(user + Fixed(Keys.PackSequenceAndType(s, t), 8)) == user
    ensures TagOf(user + Fixed(Keys.PackSequenceAndType(s, t), 8)) == s * 256 + (if t.TypeValue? then 1 else 0)
  {
    hide Fixed, FromFixed;
    var tag := Keys.PackSequenceAndType(s, t);
    var k := user + Fixed(tag, TAG_BYTES);
    assert k[..|user|] == user && k[|user|..] == Fixed(tag, TAG_BYTES);
    assert Power256(8) == 0x1_0000_0000_0000_0000;
    FixedRoundTrip(tag, TAG_BYTES);
  }

  /** The internal key that bytes stand for (ParseInternalKey). */
  function KeyOf(bytes: seq<Byte>): Keys.IKey {
    var tag := TagOf(bytes);
    Keys.IKey(Bytewise.Rank(UserKey(bytes)), tag / 256, if tag % 256 == 1 then Keys.TypeValue else Keys.TypeDeletion)
  }

  lemma KeyOfEncoded(user: seq<Byte>, s: nat, t: Keys.ValueType)
    requires s <= Keys.MAX_SEQUENCE
    ensures KeyOf(user + Fixed(Keys.PackSequenceAndType(s, t), 8)) == Keys.IKey(Bytewise.Rank(user), s, t)
  {
    hide UserKey, TagOf, Bytewise.Rank, Fixed;
    EncodedParts(user, s, t);
  }

  /** Comparing the bytes of two internal keys is comparing user keys, sequence numbers and types. */
  lemma CompareIsLess(a: seq<Byte>, s: nat, t: Keys.ValueType, b: seq<Byte>, s': nat, t': Keys.ValueType)
    requires s <= Keys.MAX_SEQUENCE && s' <= Keys.MAX_SEQUENCE
    ensures var r := Compare(a + Fixed(Keys.PackSequenceAndType(s, t), 8), b + Fixed(Keys.PackSequenceAndType(s', t'), 8));
            && (r < 0 <==> Keys.Less(Keys.IKey(Bytewise.Rank(a), s, t), Keys.IKey(Bytewise.Rank(b), s', t')))
            && (r == 0 <==> a == b && s == s' && t == t')
  {
    hide UserKey, TagOf, Bytewise.Compare, Bytewise.Rank, Fixed;
    EncodedParts(a, s, t);
    EncodedParts(b, s', t');
    Bytewise.RankKeepsOrder(a, b);
    Bytewise.RankKeepsOrder(b, a);
    Bytewise.CompareOrders(a, b, a);
  }

  /** The first byte of the tag is the type's, so that a key can be parsed. */
  predicate WellFormed(k: seq<Byte>) {
    |k| >= TAG_BYTES && TagOf(k) % 256 <= 1
  }

  lemma WellFormedOrder(a: seq<Byte>, b: seq<Byte>)
    requires WellFormed(a) && WellFormed(b)
    ensures Compare(a, b) < 0 <==> Keys.Less(KeyOf(a), KeyOf(b))
  {
    hide UserKey, TagOf, Bytewise.Compare, Bytewise.Rank;
    Bytewise.RankKeepsOrder(UserKey(a), UserKey(b));
    Bytewise.RankKeepsOrder(UserKey(b), UserKey(a));
    Bytewise.CompareOrders(UserKey(a), UserKey(b), UserKey(a));
  }

  lemma MaxTagKey(user: seq<Byte>)
    ensures UserKey(user + Fixed(MAX_TAG, TAG_BYTES)) == user
    ensures TagOf(user + Fixed(MAX_TAG, TAG_BYTES)) == MAX_TAG
  {
    hide UserKey, TagOf, Fixed;
    EncodedParts(user, Keys.MAX_SEQUENCE, Keys.TYPE_FOR_SEEK);
  }

  method FindShortestSeparator(start: seq<Byte>, limit: seq<Byte>) returns (r: seq<Byte>)
    requires |start| >= TAG_BYTES && |limit| >= TAG_BYTES
    ensures r == start || (CutsBetween(start, r, limit) && TagOf(r) == MAX_TAG)
    ensures TAG_BYTES <= |r| <= |start|
    // The user key is cut by the bytewise comparator, and gets the first of all tags if it became shorter.
    ensures exists tmp :: Bytewise.IsSeparator(start[..|start| - 8], limit[..|limit| - 8], tmp)
              && r == if |tmp| < |start| - 8 then tmp + Fixed(Keys.PackSequenceAndType(Keys.MAX_SEQUENCE, Keys.TypeValue), 8) else start
  {
    hide Bytewise.Compare, Bytewise.IsSeparator, Bytewise.IsSuccessor, Fixed, TagOf;
    var userStart, userLimit := UserKey(start), UserKey(limit);
    var tmp := Bytewise.FindShortestSeparator(userStart, userLimit);
    if |tmp| < |userStart| && Bytewise.Compare(userStart, tmp) < 0 {
      MaxTagKey(tmp);
      r := tmp + Fixed(MAX_TAG, TAG_BYTES);
    } else {
      r := start;
    }
  }

  method FindShortSuccessor(key: seq<Byte>) returns (r: seq<Byte>)
    requires |key| >= TAG_BYTES
    ensures r == key || (Bytewise.Compare(UserKey(key), UserKey(r)) < 0 && TagOf(r) == MAX_TAG)
    ensures TAG_BYTES <= |r| <= |key|
    ensures exists tmp :: Bytewise.IsSuccessor(key[..|key| - 8], tmp)
              && r == if |tmp| < |key| - 8 then tmp + Fixed(Keys.PackSequenceAndType(Keys.MAX_SEQUENCE, Keys.TypeValue), 8) else key
  {
    hide Bytewise.Compare, Bytewise.IsSeparator, Bytewise.IsSuccessor, Fixed, TagOf;
    var userKey := UserKey(key);
    var tmp := Bytewise.FindShortSuccessor(userKey);
    if |tmp| < |userKey| && Bytewise.Compare(userKey, tmp) < 0 {
      MaxTagKey(tmp);
      r := tmp + Fixed(MAX_TAG, TAG_BYTES);
    } else {
      r := key;
    }
  }

  /** A key cut between two keys separates them, and no target at or below it has the user key of
      anything at or past the limit. */
  lemma CutSeparates(start: seq<Byte>, r: seq<Byte>, limit: seq<Byte>)
    requires CutsBetween(start, r, limit)
    ensures Compare(start, r) < 0 && Compare(r, limit) < 0
    ensures forall target, k :: Compare(target, r) <= 0 && Compare(limit, k) <= 0 ==> UserKey(target) != UserKey(k)
  {
    hide Bytewise.Compare, UserKey, TagOf;
    forall target, k | Compare(target, r) <= 0 && Compare(limit, k) <= 0 ensures UserKey(target) != UserKey(k) {
      Bytewise.RankKeepsOrder(UserKey(r), UserKey(limit));
      Bytewise.RankKeepsOrder(UserKey(target), UserKey(r));
      Bytewise.RankKeepsOrder(UserKey(limit), UserKey(k));
    }
  }
}

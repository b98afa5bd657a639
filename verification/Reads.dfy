/** What a read means, independently of where entries are stored: the newest entry of a user key
    with a sequence number at or below the reader's. */
module Reads {
  import opened Keys

  /** The entries of a sorted run. */
  ghost function Run(es: seq<Entry>): set<Entry> {
    set e | e in es
  }

  ghost predicate Visible(e: Entry, k: UserKey, s: nat) {
    e.key.ukey == k && e.key.seqno <= s
  }

  ghost predicate IsNewest(es: set<Entry>, k: UserKey, s: nat, e: Entry) {
    && e in es
    && Visible(e, k, s)
    && forall o :: o in es && Visible(o, k, s) ==> o.key.seqno <= e.key.seqno
  }

  ghost predicate NothingVisible(es: set<Entry>, k: UserKey, s: nat) {
    forall e :: e in es ==> !Visible(e, k, s)
  }

  /** No two entries of one user key carry the same sequence number. */
  ghost predicate DistinctSeqnos(es: set<Entry>) {
    forall a, b :: a in es && b in es && a.key.ukey == b.key.ukey && a.key.seqno == b.key.seqno ==> a == b
  }

  /** Along a run, the entries of one user key get older. */
  ghost predicate SeqnosDescend(es: seq<Entry>) {
    forall a, b :: 0 <= a < b < |es| && es[a].key.ukey == es[b].key.ukey ==> es[a].key.seqno > es[b].key.seqno
  }

  function ValueOf(e: Entry): Option<Bytes> {
    if e.key.typ.TypeValue? then Some(e.value) else None
  }

  /** The value of k at sequence number s; None when k is absent or deleted. */
  ghost function Read(es: set<Entry>, k: UserKey, s: nat): Option<Bytes> {
    if e :| IsNewest(es, k, s, e) then ValueOf(e) else None
  }

  lemma NewestExists(es: set<Entry>, k: UserKey, s: nat) returns (e: Entry)
    requires !NothingVisible(es, k, s)
    ensures IsNewest(es, k, s, e)
  {
    e :| e in es && Visible(e, k, s);
    var rest := es - {e};
    if !NothingVisible(rest, k, s) {
      var n := NewestExists(rest, k, s);
      if n.key.seqno > e.key.seqno { e := n; }
    }
  }

  lemma ReadNewest(es: set<Entry>, k: UserKey, s: nat, e: Entry)
    requires DistinctSeqnos(es) && IsNewest(es, k, s, e)
    ensures Read(es, k, s) == ValueOf(e)
  {
    forall o | IsNewest(es, k, s, o) ensures o == e {}
  }

  /** Two stores read alike when the newest entry of either is also the newest of the other. */
  lemma SameNewestSameRead(a: set<Entry>, b: set<Entry>, k: UserKey, s: nat, e: Entry)
    requires DistinctSeqnos(a) && DistinctSeqnos(b)
    requires IsNewest(a, k, s, e) && IsNewest(b, k, s, e)
    ensures Read(a, k, s) == Read(b, k, s)
  {
    ReadNewest(a, k, s, e);
    ReadNewest(b, k, s, e);
  }

  /** A newer part shadows an older one: if every entry of k in `newer` beats every entry of k in
      `older`, a visible entry in `newer` decides the read of the union, and otherwise `older` does. */
  lemma ReadUnion(newer: set<Entry>, older: set<Entry>, k: UserKey, s: nat)
    requires DistinctSeqnos(newer + older)
    requires forall a, b :: a in newer && b in older && a.key.ukey == k && b.key.ukey == k ==>
               a.key.seqno > b.key.seqno
    ensures !NothingVisible(newer, k, s) ==> Read(newer + older, k, s) == Read(newer, k, s)
    ensures NothingVisible(newer, k, s) ==> Read(newer + older, k, s) == Read(older, k, s)
  {
    if !NothingVisible(newer, k, s) {
      var e := NewestExists(newer, k, s);
      SameNewestSameRead(newer + older, newer, k, s, e);
    } else if !NothingVisible(older, k, s) {
      var e := NewestExists(older, k, s);
      SameNewestSameRead(newer + older, older, k, s, e);
    }
  }
}

/** Amounts filed under a key and a token, and their totals per token. */
module Ledger {

  type Token = nat

  datatype Entry<K> = Entry(key: K, token: Token)

  function AmountOf<K(==)>(db: map<Entry<K>, nat>, e: Entry<K>): nat
  {
    if e in db then db[e] else 0
  }

  function Counted<K>(e: Entry<K>, amount: nat, t: Token): nat
  {
    if e.token == t then amount else 0
  }

  /** All that is filed under one token. */
  ghost function Total<K>(db: map<Entry<K>, nat>, t: Token): nat
    decreases |db|
  {
    if db == map[] then 0
    else
      var e :| e in db;
      Counted(e, db[e], t) + Total(db - {e}, t)
  }

  lemma {:induction false} TotalWithout<K>(db: map<Entry<K>, nat>, e: Entry<K>, t: Token)
    requires e in db
    ensures Total(db, t) == Counted(e, db[e], t) + Total(db - {e}, t)
    decreases |db|
  {
    var f :| f in db && Total(db, t) == Counted(f, db[f], t) + Total(db - {f}, t);
    if f != e {
      TotalWithout(db - {f}, e, t);
      TotalWithout(db - {e}, f, t);
      assert db - {f} - {e} == db - {e} - {f};
    }
  }

  function Add<K(==)>(db: map<Entry<K>, nat>, e: Entry<K>, amount: nat): map<Entry<K>, nat>
  {
    db[e := AmountOf(db, e) + amount]
  }

  /** Adding to an entry raises the total of its token by the amount and no other. */
  lemma {:induction false} AddTotal<K>(db: map<Entry<K>, nat>, e: Entry<K>, amount: nat, t: Token)
    ensures Total(Add(db, e, amount), t) == Total(db, t) + if e.token == t then amount else 0
  {
    var after := Add(db, e, amount);
    TotalWithout(after, e, t);
    assert after - {e} == db - {e};
    if e in db { TotalWithout(db, e, t); } else { assert db - {e} == db; }
  }
}

/** That names are in fact compressed: what the printer remembers of them, and what a repeated name takes
    (src/name.rs, src/message.rs). */
module Compression {
  import opened Octets
  import opened Names
  import opened Compressor
  import opened RData
  import opened Records
  import opened Message

  /** `n` without its first `k` labels. */
  function Drop(n: Name, k: nat): Name
    requires k <= LabelCount(n)
  {
    if k == 0 then n else Drop(n.parent, k - 1)
  }

  /** How many octets the first `k` labels of `n` take. */
  function Before(n: Name, k: nat): nat
    requires k <= LabelCount(n)
  {
    if k == 0 then 0 else 1 + |n.first| + Before(n.parent, k - 1)
  }

  /** None of the first `k` suffixes of `n`, longest first, is in the table. */
  predicate Unknown(t: Table, n: Name, k: nat)
    requires k <= LabelCount(n)
  {
    k == 0 || (n !in t && Unknown(t, n.parent, k - 1))
  }

  lemma {:induction false} DropShrinks(n: Name, k: nat)
    requires k <= LabelCount(n)
    ensures LabelCount(Drop(n, k)) == LabelCount(n) - k
    ensures |Wire(n)| == Before(n, k) + |Wire(Drop(n, k))|
  {
    if k > 0 {
      DropShrinks(n.parent, k - 1);
    }
  }

  lemma {:induction false} OnlyItsSuffixes(t: Table, base: nat, n: Name, m: Name)
    requires LabelCount(m) > LabelCount(n)
    ensures m in NameTable(t, base, n) <==> m in t
    ensures m in t ==> NameTable(t, base, n)[m] == t[m]
    decreases n
  {
    if n != Root && n !in t {
      OnlyItsSuffixes(t, base + 1 + |n.first|, n.parent, m);
    }
  }

  /** Of a name written at `base`, a suffix whose labels are written out is remembered where it stands if and
      only if that is within the reach of a pointer. */
  lemma {:induction false} WrittenIsKnown(t: Table, base: nat, n: Name, k: nat)
    requires k < LabelCount(n) && Unknown(t, n, k + 1)
    ensures var s, at := Drop(n, k), base + Before(n, k);
            && (s in NameTable(t, base, n) <==> at <= 0x3fff)
            && (at <= 0x3fff ==> NameTable(t, base, n)[s] == at)
    decreases n
  {
    if k > 0 {
      WrittenIsKnown(t, base + 1 + |n.first|, n.parent, k - 1);
      DropShrinks(n.parent, k - 1);
      assert Drop(n, k) == Drop(n.parent, k - 1);
      hide Drop, NameTable;
      NextTable(t, base, n);
    } else {
      OnlyItsSuffixes(t, base + 1 + |n.first|, n.parent, n);
    }
  }

  lemma NextTable(t: Table, base: nat, n: Name)
    requires n.Sub? && n !in t
    ensures var t1 := NameTable(t, base + 1 + |n.first|, n.parent);
            NameTable(t, base, n) == if base <= 0x3fff then t1[n := base] else t1
  {
  }

  /** A name takes the octets of the labels before its longest known suffix and a pointer of two octets. */
  lemma {:induction false} KnownIsUsed(t: Table, n: Name, k: nat)
    requires k < LabelCount(n) && Unknown(t, n, k) && Drop(n, k) in t
    ensures Before(n, k) <= |Wire(n)| && NameBytes(t, n) == Wire(n)[..Before(n, k)] + Pointer(t[Drop(n, k)])
    ensures |NameBytes(t, n)| == Before(n, k) + 2
  {
    DropShrinks(n, k);
    if k > 0 {
      KnownIsUsed(t, n.parent, k - 1);
      PrefixLonger([|n.first| as byte] + n.first, Wire(n.parent), Before(n.parent, k - 1), Pointer(t[Drop(n, k)]));
    }
  }

  /** Without one it is written in full. */
  lemma {:induction false} UnknownIsWritten(t: Table, n: Name)
    requires Unknown(t, n, LabelCount(n))
    ensures NameBytes(t, n) == Wire(n)
  {
    if n.Sub? {
      UnknownIsWritten(t, n.parent);
    }
  }

  // ---------------------------------------------------------------------------------------------
  // What is known stays known

  /** `t'` remembers all that `t` does. */
  ghost predicate Remembers(t: Table, t': Table) {
    forall n :: n in t ==> n in t' && t'[n] == t[n]
  }

  lemma {:induction false} NameRemembers(t: Table, base: nat, n: Name)
    ensures Remembers(t, NameTable(t, base, n))
    decreases n
  {
    if n != Root && n !in t {
      NameRemembers(t, base + 1 + |n.first|, n.parent);
    }
  }

  lemma {:induction false} FieldsRemember(w: Writer, fs: seq<Field>, n: nat)
    requires n <= |fs|
    ensures Remembers(w.table, PutFields(w, fs, n).table)
  {
    if n > 0 {
      FieldsRemember(w, fs, n - 1);
      var v, f := PutFields(w, fs, n - 1), fs[n - 1];
      if f.Domain? {
        NameRemembers(v.table, |v.out|, f.name);
      }
      hide PutFields, FieldBytes, NameTable;
    }
  }

  /** Once a name has been written, every suffix of it that starts within the reach of a pointer is known, up
      to and including the first one that was known before. */
  lemma SuffixIsKnown(t: Table, base: nat, n: Name, k: nat)
    requires k < LabelCount(n) && Unknown(t, n, k) && base + Before(n, k) <= 0x3fff
    ensures Drop(n, k) in NameTable(t, base, n)
  {
    if Drop(n, k) in t {
      NameRemembers(t, base, n);
    } else {
      OneMoreUnknown(t, n, k);
      WrittenIsKnown(t, base, n, k);
    }
  }

  lemma {:induction false} OneMoreUnknown(t: Table, n: Name, k: nat)
    requires k < LabelCount(n) && Unknown(t, n, k) && Drop(n, k) !in t
    ensures Unknown(t, n, k + 1)
  {
    if k > 0 {
      OneMoreUnknown(t, n.parent, k - 1);
    }
  }

  lemma RecordRemembers(w: Writer, r: Record)
    requires PutRecord(w, r).Ok?
    ensures Remembers(NameTable(w.table, |w.out|, r.name), PutRecord(w, r).value.table)
    ensures Remembers(w.table, PutRecord(w, r).value.table)
  {
    var u := PutBytes(PutBytes(PutName(w, r.name), FixedBytes(r)), [0, 0]);
    NameRemembers(w.table, |w.out|, r.name);
    FieldsRemember(u, r.rdata, |r.rdata|);
    hide NameTable, NameBytes, PutFields, Patched;
  }

  lemma {:induction false} QuestionsRemember(w: Writer, qs: seq<Question>, k: nat, n: nat)
    requires k <= n <= |qs|
    ensures Remembers(PutQuestions(w, qs, k).table, PutQuestions(w, qs, n).table)
  {
    if k < n {
      QuestionsRemember(w, qs, k, n - 1);
      var v := PutQuestions(w, qs, n - 1);
      NameRemembers(v.table, |v.out|, qs[n - 1].qname);
      assert PutQuestions(w, qs, n).table == NameTable(v.table, |v.out|, qs[n - 1].qname);
      hide NameTable, PutQuestions;
    }
  }

  lemma {:induction false} RecordsRemember(w: Writer, rs: seq<Record>, k: nat, n: nat)
    requires k <= n <= |rs| && PutRecords(w, rs, n).Ok?
    ensures PutRecords(w, rs, k).Ok? && Remembers(PutRecords(w, rs, k).value.table, PutRecords(w, rs, n).value.table)
  {
    if k < n {
      hide PutRecord, Remembers;
      RecordsRemember(w, rs, k, n - 1);
      RecordRemembers(PutRecords(w, rs, n - 1).value, rs[n - 1]);
      Passes(PutRecords(w, rs, k).value.table, PutRecords(w, rs, n - 1).value.table, PutRecords(w, rs, n).value.table);
    }
  }

  lemma Passes(a: Table, b: Table, c: Table)
    requires Remembers(a, b) && Remembers(b, c)
    ensures Remembers(a, c)
  {
  }

  // ---------------------------------------------------------------------------------------------
  // Messages

  function Empty(m: Message): Writer {
    Writer(StartBytes(m) + ZERO_COUNTS, map[])
  }

  /** A message after its questions and `n` records. */
  function Upto(m: Message, n: nat): Result<Writer>
    requires n <= |Sections(m)|
  {
    PutRecords(PutQuestions(Empty(m), m.questions, |m.questions|), Sections(m), n)
  }

  lemma PointerOnly(t: Table, n: Name)
    requires n in t && n != Root
    ensures |NameBytes(t, n)| == 2
  {
  }

  /** The name of a question, or a suffix of it that was written out there, takes two octets wherever it comes
      again in the records, if it started within the reach of a pointer. */
  lemma QuestionAgain(m: Message, i: nat, k: nat, n: nat, v: Writer, w: Writer)
    requires i < |m.questions| && k < LabelCount(m.questions[i].qname)
    requires v == PutQuestions(Empty(m), m.questions, i) && Unknown(v.table, m.questions[i].qname, k)
    requires |v.out| + Before(m.questions[i].qname, k) <= 0x3fff
    requires n <= |Sections(m)| && Upto(m, n) == Ok(w)
    ensures |PutName(w, Drop(m.questions[i].qname, k)).out| == |w.out| + 2
  {
    var q := m.questions[i].qname;
    SuffixIsKnown(v.table, |v.out|, q, k);
    DropShrinks(q, k);
    assert PutQuestions(Empty(m), m.questions, i + 1).table == NameTable(v.table, |v.out|, q);
    hide Empty, PutQuestions, PutRecords, Sections, NameTable, PutRecord, Drop, Unknown, Before;
    QuestionsRemember(Empty(m), m.questions, i + 1, |m.questions|);
    RecordsRemember(PutQuestions(Empty(m), m.questions, |m.questions|), Sections(m), 0, n);
    NothingYet(PutQuestions(Empty(m), m.questions, |m.questions|), Sections(m));
    PointerOnly(w.table, Drop(q, k));
  }

  lemma NothingYet(w: Writer, rs: seq<Record>)
    ensures PutRecords(w, rs, 0) == Ok(w)
  {
  }

  /** So does the owner of a record, or a suffix of it that was written out there. */
  lemma OwnerAgain(m: Message, j: nat, k: nat, n: nat, v: Writer, w: Writer)
    requires j < n <= |Sections(m)| && k < LabelCount(Sections(m)[j].name)
    requires Upto(m, j) == Ok(v) && Unknown(v.table, Sections(m)[j].name, k)
    requires |v.out| + Before(Sections(m)[j].name, k) <= 0x3fff && Upto(m, n) == Ok(w)
    ensures |PutName(w, Drop(Sections(m)[j].name, k)).out| == |w.out| + 2
  {
    var owner := Sections(m)[j].name;
    SuffixIsKnown(v.table, |v.out|, owner, k);
    DropShrinks(owner, k);
    hide Empty, PutQuestions, Sections, NameTable, PutRecord, PutRecords, Drop, Unknown, Before;
    OwnersAreKnown(PutQuestions(Empty(m), m.questions, |m.questions|), Sections(m), j, n, v, w);
    PointerOnly(w.table, Drop(owner, k));
  }

  lemma OwnersAreKnown(start: Writer, rs: seq<Record>, j: nat, n: nat, v: Writer, w: Writer)
    requires j < n <= |rs| && PutRecords(start, rs, j) == Ok(v) && PutRecords(start, rs, n) == Ok(w)
    ensures Remembers(NameTable(v.table, |v.out|, rs[j].name), w.table)
  {
    OneMoreRecord(start, rs, j);
    hide *;
    RecordsRemember(start, rs, j + 1, n);
    RecordRemembers(v, rs[j]);
    Passes(NameTable(v.table, |v.out|, rs[j].name), PutRecord(v, rs[j]).value.table, w.table);
  }

  lemma OneMoreRecord(start: Writer, rs: seq<Record>, j: nat)
    requires j < |rs| && PutRecords(start, rs, j).Ok?
    ensures PutRecords(start, rs, j + 1) == PutRecord(PutRecords(start, rs, j).value, rs[j])
  {
    hide PutRecord;
  }
}

/** The same chain kept in a file, one line a record, sealed or plain. */
module AuditFile {
  import opened Options
  import opened Audit

  /** A sealer, and the text its output is written as. */
  datatype Sealer = Sealer(enabled: bool, seal: string -> string, unseal: string -> Option<string>)

  /** How records and sealed bytes are written as text. `again` is what a body read back from its
      text is hashed as. */
  datatype Format = Format(toJson: Record -> string, fromJson: string -> Option<Record>, toText: string -> string, fromText: string -> Option<string>, again: Body -> Body) {
    /** A record read back keeps its number and its hashes; its text opens with a brace, and
        sealed text never does, nor is it ever empty. */
    ghost predicate Lawful() {
      && (forall r :: fromJson(toJson(r)) == Some(r.(body := again(r.body))) && toJson(r) != "" && toJson(r)[0] == '{')
      && (forall b :: fromText(toText(b)) == Some(b) && toText(b) != "" && toText(b)[0] != '{')
    }
  }

  /** What `w` sealed, `s` either opens or does not get a record from. */
  ghost predicate Authentic(f: Format, s: Sealer, w: Sealer) {
    forall line :: OpensOrFails(f, s, w, line)
  }

  ghost predicate OpensOrFails(f: Format, s: Sealer, w: Sealer, line: string) {
    match s.unseal(w.seal(line))
    case None => true
    case Some(got) => got == line || f.fromJson(got) == None
  }

  ghost predicate HasKey(s: Sealer, w: Sealer) {
    forall line :: s.unseal(w.seal(line)) == Some(line)
  }

  function EncodeLine(f: Format, s: Sealer, line: string): string {
    if s.enabled then f.toText(s.seal(line)) else line
  }

  function DecodeLine(f: Format, s: Sealer, line: string): Option<string> {
    if line != "" && line[0] == '{' then Some(line)
    else match f.fromText(line) case None => None case Some(raw) => s.unseal(raw)
  }

  /** The record a line holds. */
  function ReadLine(f: Format, s: Sealer, line: string): Option<Record> {
    match DecodeLine(f, s, line) case None => None case Some(text) => f.fromJson(text)
  }

  /** A reader with the key reads a line whether it was written sealed or, before sealing was
      turned on, in the clear; and reads it back unchanged if and only if what its body is hashed
      as survives being read. */
  lemma LineRoundTrips(f: Format, writer: Sealer, reader: Sealer, r: Record)
    requires f.Lawful() && (writer.enabled ==> HasKey(reader, writer))
    ensures var line := EncodeLine(f, writer, f.toJson(r));
      && line != "" && ReadLine(f, reader, line) == Some(r.(body := f.again(r.body)))
      && (ReadLine(f, reader, line) == Some(r) <==> f.again(r.body) == r.body)
  {
    var line := f.toJson(r);
    assert f.fromText(f.toText(writer.seal(line))) == Some(writer.seal(line));
  }

  /** Sealed, a line says nothing to a reader that cannot open it. */
  lemma SealedIsUnread(f: Format, writer: Sealer, reader: Sealer, r: Record)
    requires f.Lawful() && writer.enabled && forall line :: reader.unseal(writer.seal(line)) == None
    ensures ReadLine(f, reader, EncodeLine(f, writer, f.toJson(r))) == None
  {
    var line := f.toJson(r);
    assert f.fromText(f.toText(writer.seal(line))) == Some(writer.seal(line));
  }

  /** A reader gets the record, its body as read, or nothing. */
  lemma LineKeepsChain(f: Format, writer: Sealer, reader: Sealer, r: Record)
    requires f.Lawful() && (writer.enabled ==> Authentic(f, reader, writer))
    ensures var line := EncodeLine(f, writer, f.toJson(r));
      line != "" && (ReadLine(f, reader, line) == None || ReadLine(f, reader, line) == Some(r.(body := f.again(r.body))))
  {
    var line := f.toJson(r);
    assert f.fromText(f.toText(writer.seal(line))) == Some(writer.seal(line));
    assert writer.enabled ==> OpensOrFails(f, reader, writer, line);
  }

  /** The records of a file's lines; an empty line holds none. */
  ghost predicate Reads(f: Format, s: Sealer, lines: seq<string>, recs: seq<Record>)
    decreases |lines|
  {
    if lines == [] then recs == []
    else
      var n := |lines| - 1;
      if lines[n] == "" then Reads(f, s, lines[..n], recs)
      else recs != [] && ReadLine(f, s, lines[n]) == Some(recs[|recs| - 1]) && Reads(f, s, lines[..n], recs[..|recs| - 1])
  }

  lemma {:induction false} ReadsOne(f: Format, s: Sealer, lines: seq<string>, a: seq<Record>, b: seq<Record>)
    requires Reads(f, s, lines, a) && Reads(f, s, lines, b)
    ensures a == b
    decreases |lines|
  {
    if lines != [] {
      var n := |lines| - 1;
      if lines[n] == "" {
        ReadsOne(f, s, lines[..n], a, b);
      } else {
        ReadsOne(f, s, lines[..n], a[..|a| - 1], b[..|b| - 1]);
        assert a == a[..|a| - 1] + [a[|a| - 1]] && b == b[..|b| - 1] + [b[|b| - 1]];
      }
    }
  }

  lemma {:induction false} ReadsSnoc(f: Format, s: Sealer, lines: seq<string>, recs: seq<Record>, line: string, r: Record)
    requires Reads(f, s, lines, recs) && line != "" && ReadLine(f, s, line) == Some(r)
    ensures Reads(f, s, lines + [line], recs + [r])
  {
    assert (lines + [line])[..|lines|] == lines && (recs + [r])[..|recs|] == recs;
  }

  /** The file verifies: its lines read as one chain from the beginning. */
  ghost predicate FileVerifies(f: Format, s: Sealer, h: Hasher, lines: seq<string>) {
    exists recs: seq<Record> :: Reads(f, s, lines, recs) && Chained(h, recs, 0, "")
  }

  lemma {:induction false} ReadsPrefix(f: Format, s: Sealer, lines: seq<string>, recs: seq<Record>, k: nat) returns (n: nat)
    requires Reads(f, s, lines, recs) && k <= |lines|
    ensures n <= |recs| && Reads(f, s, lines[..k], recs[..n])
    decreases |lines|
  {
    if k == |lines| {
      assert lines[..k] == lines && recs[..|recs|] == recs;
      n := |recs|;
    } else {
      var m := |lines| - 1;
      assert lines[..m][..k] == lines[..k];
      if lines[m] == "" {
        n := ReadsPrefix(f, s, lines[..m], recs, k);
      } else {
        n := ReadsPrefix(f, s, lines[..m], recs[..|recs| - 1], k);
        assert recs[..|recs| - 1][..n] == recs[..n];
      }
    }
  }

  lemma PrefixVerifies(f: Format, s: Sealer, h: Hasher, lines: seq<string>, k: nat)
    requires FileVerifies(f, s, h, lines) && k <= |lines|
    ensures FileVerifies(f, s, h, lines[..k])
  {
    var recs :| Reads(f, s, lines, recs) && Chained(h, recs, 0, "");
    var n := ReadsPrefix(f, s, lines, recs, k);
    ChainedPrefix(h, recs, 0, "", n);
  }

  /** A line that follows a verified prefix: a record linked, numbered and hashed right. */
  predicate Follows(f: Format, s: Sealer, h: Hasher, line: string, last: nat, prev: string) {
    var got := ReadLine(f, s, line);
    && got.Some? && got.value.prevHash == prev && got.value.number == last + 1
    && h(got.value.number, got.value.body, got.value.prevHash) == got.value.hash
  }

  lemma {:induction false} LineExtends(f: Format, s: Sealer, h: Hasher, lines: seq<string>, line: string, recs: seq<Record>)
    requires Reads(f, s, lines, recs) && Chained(h, recs, 0, "") && line != "" && Follows(f, s, h, line, |recs|, Head(recs, ""))
    ensures var all := recs + [ReadLine(f, s, line).value]; Reads(f, s, lines + [line], all) && Chained(h, all, 0, "")
  {
    var r := ReadLine(f, s, line).value;
    ReadsSnoc(f, s, lines, recs, line, r);
    assert (recs + [r])[..|recs|] == recs;
    ChainedSnoc(h, recs, 0, "", r);
  }

  lemma {:induction false} LineStops(f: Format, s: Sealer, h: Hasher, lines: seq<string>, line: string, recs: seq<Record>, all: seq<Record>)
    requires Reads(f, s, lines, recs) && line != "" && Reads(f, s, lines + [line], all) && Chained(h, all, 0, "")
    ensures Follows(f, s, h, line, |recs|, Head(recs, ""))
  {
    assert (lines + [line])[..|lines|] == lines;
    ReadsOne(f, s, lines, recs, all[..|all| - 1]);
    assert Held(h, all, 0, "", |all| - 1);
  }

  /** With the lines before it verified, line `i` alone decides whether the file still can. */
  lemma {:induction false} LineDecides(f: Format, s: Sealer, h: Hasher, lines: seq<string>, i: nat, recs: seq<Record>)
    requires i < |lines| && Reads(f, s, lines[..i], recs) && Chained(h, recs, 0, "")
    ensures lines[i] == "" ==> Reads(f, s, lines[..i + 1], recs)
    ensures lines[i] != "" ==>
      if Follows(f, s, h, lines[i], |recs|, Head(recs, "")) then
        var all := recs + [ReadLine(f, s, lines[i]).value]; Reads(f, s, lines[..i + 1], all) && Chained(h, all, 0, "")
      else !FileVerifies(f, s, h, lines)
  {
    assert lines[..i + 1] == lines[..i] + [lines[i]] && lines[..i + 1][..i] == lines[..i];
    if lines[i] != "" {
      if Follows(f, s, h, lines[i], |recs|, Head(recs, "")) {
        LineExtends(f, s, h, lines[..i], lines[i], recs);
      } else {
        LineRefuses(f, s, h, lines, i, recs);
      }
    }
  }

  lemma {:induction false} LineRefuses(f: Format, s: Sealer, h: Hasher, lines: seq<string>, i: nat, recs: seq<Record>)
    requires i < |lines| && Reads(f, s, lines[..i], recs) && lines[i] != "" && !Follows(f, s, h, lines[i], |recs|, Head(recs, ""))
    ensures !FileVerifies(f, s, h, lines)
  {
    var upTo := lines[..i] + [lines[i]];
    assert lines[..i + 1] == upTo;
    forall all: seq<Record> ensures !(Reads(f, s, upTo, all) && Chained(h, all, 0, "")) {
      NotBoth(f, s, h, lines[..i], lines[i], recs, all);
    }
    assert !FileVerifies(f, s, h, upTo);
    PrefixRefuses(f, s, h, lines, i + 1);
  }

  lemma {:induction false} NotBoth(f: Format, s: Sealer, h: Hasher, lines: seq<string>, line: string, recs: seq<Record>, all: seq<Record>)
    requires Reads(f, s, lines, recs) && line != "" && !Follows(f, s, h, line, |recs|, Head(recs, ""))
    ensures !(Reads(f, s, lines + [line], all) && Chained(h, all, 0, ""))
  {
    if Reads(f, s, lines + [line], all) && Chained(h, all, 0, "") {
      LineStops(f, s, h, lines, line, recs, all);
      assert false;
    }
  }

  lemma PrefixRefuses(f: Format, s: Sealer, h: Hasher, lines: seq<string>, k: nat)
    requires k <= |lines| && !FileVerifies(f, s, h, lines[..k])
    ensures !FileVerifies(f, s, h, lines)
  {
    if FileVerifies(f, s, h, lines) {
      PrefixVerifies(f, s, h, lines, k);
      assert false;
    }
  }

  /** `Verify`: accepts exactly the files that read as one chain, and counts their records. */
  method Verify(f: Format, s: Sealer, h: Hasher, lines: seq<string>) returns (records: nat, ok: bool)
    ensures ok <==> FileVerifies(f, s, h, lines)
    ensures ok ==> forall recs: seq<Record> :: Reads(f, s, lines, recs) ==> records == |recs|
  {
    var prev := "";
    var last := 0;
    ghost var recs: seq<Record> := [];
    records := 0;
    for i := 0 to |lines|
      invariant Reads(f, s, lines[..i], recs) && Chained(h, recs, 0, "")
      invariant records == last == |recs| && prev == Head(recs, "")
    {
      LineDecides(f, s, h, lines, i, recs);
      if lines[i] != "" {
        var got := ReadLine(f, s, lines[i]);
        if got.None? || got.value.prevHash != prev || got.value.number != last + 1
          || h(got.value.number, got.value.body, got.value.prevHash) != got.value.hash {
          return records, false;
        }
        recs := recs + [got.value];
        prev, last, records := got.value.hash, got.value.number, records + 1;
      }
    }
    assert lines[..|lines|] == lines;
    ok := true;
    forall other: seq<Record> | Reads(f, s, lines, other) ensures records == |other| {
      ReadsOne(f, s, lines, recs, other);
    }
  }

  ghost predicate Readable(f: Format, s: Sealer, lines: seq<string>) {
    exists recs :: Reads(f, s, lines, recs)
  }

  function LastNumber(recs: seq<Record>): nat {
    if recs == [] then 0 else recs[|recs| - 1].number
  }

  /** `tail`: where a file's chain stands, if every line can be read. */
  method Tail(f: Format, s: Sealer, lines: seq<string>) returns (readable: bool, last: nat, head: string)
    ensures readable <==> Readable(f, s, lines)
    ensures forall recs: seq<Record> :: Reads(f, s, lines, recs) ==>
      last == LastNumber(recs) && head == Head(recs, "")
  {
    last, head := 0, "";
    ghost var recs: seq<Record> := [];
    for i := 0 to |lines|
      invariant Reads(f, s, lines[..i], recs)
      invariant last == LastNumber(recs) && head == Head(recs, "")
    {
      assert lines[..i + 1][..i] == lines[..i];
      if lines[i] != "" {
        var got := ReadLine(f, s, lines[i]);
        if got.None? {
          Unreadable(f, s, lines, i);
          return false, last, head;
        }
        ReadsSnoc(f, s, lines[..i], recs, lines[i], got.value);
        assert lines[..i + 1] == lines[..i] + [lines[i]];
        recs := recs + [got.value];
        last, head := got.value.number, got.value.hash;
      }
    }
    assert lines[..|lines|] == lines;
    readable := true;
    assert Readable(f, s, lines);
    forall other: seq<Record> | Reads(f, s, lines, other)
      ensures last == LastNumber(other) && head == Head(other, "")
    {
      ReadsOne(f, s, lines, recs, other);
      assert other == recs;
    }
  }

  lemma Unreadable(f: Format, s: Sealer, lines: seq<string>, i: nat)
    requires i < |lines| && lines[i] != "" && ReadLine(f, s, lines[i]).None?
    ensures !Readable(f, s, lines)
  {
    forall recs ensures !Reads(f, s, lines, recs) {
      if Reads(f, s, lines, recs) {
        var n := ReadsPrefix(f, s, lines, recs, i + 1);
      }
    }
  }

  // ── The log ────────────────────────────────────────────────────────

  /** The lines are the records' own, each as its writer wrote it. */
  ghost predicate Wrote(f: Format, lines: seq<string>, recs: seq<Record>, writers: seq<Sealer>) {
    |lines| == |recs| == |writers| && forall i :: 0 <= i < |lines| ==> lines[i] == EncodeLine(f, writers[i], f.toJson(recs[i]))
  }

  /** The reader gets a record from every line. */
  ghost predicate AllRead(f: Format, s: Sealer, lines: seq<string>) {
    forall i :: 0 <= i < |lines| ==> ReadLine(f, s, lines[i]).Some?
  }

  ghost predicate LinesReadBack(f: Format, s: Sealer, lines: seq<string>, recs: seq<Record>)
    requires |lines| == |recs|
  {
    forall i :: 0 <= i < |lines| ==> ReadLine(f, s, lines[i]) == Some(recs[i])
  }

  ghost predicate AllAuthentic(f: Format, s: Sealer, writers: seq<Sealer>) {
    forall i :: 0 <= i < |writers| && writers[i].enabled ==> Authentic(f, s, writers[i])
  }

  /** What a file of non-empty lines reads as, line by line. */
  lemma {:induction false} ReadsByLine(f: Format, s: Sealer, lines: seq<string>, recs: seq<Record>)
    requires forall i :: 0 <= i < |lines| ==> lines[i] != ""
    ensures Reads(f, s, lines, recs) <==> |lines| == |recs| && LinesReadBack(f, s, lines, recs)
    decreases |lines|
  {
    if lines != [] && recs != [] {
      var n, m := |lines| - 1, |recs| - 1;
      ReadsByLine(f, s, lines[..n], recs[..m]);
      if |lines| == |recs| && LinesReadBack(f, s, lines[..n], recs[..m]) && ReadLine(f, s, lines[n]) == Some(recs[m]) {
        forall i | 0 <= i < |lines| ensures ReadLine(f, s, lines[i]) == Some(recs[i]) {
          if i < n {
            assert lines[..n][i] == lines[i] && recs[..m][i] == recs[i];
          }
        }
      }
    }
  }

  /** An honest file verifies for a reader if and only if the reader reads every line back
      unchanged - whoever wrote them and however. */
  lemma HonestFileVerifies(f: Format, s: Sealer, h: Hasher, lines: seq<string>, recs: seq<Record>, writers: seq<Sealer>)
    requires Injective(h) && f.Lawful() && Wrote(f, lines, recs, writers) && Chained(h, recs, 0, "") && AllAuthentic(f, s, writers)
    ensures FileVerifies(f, s, h, lines) <==> LinesReadBack(f, s, lines, recs)
  {
    LinesAreWritten(f, s, lines, recs, writers);
    ReadsByLine(f, s, lines, recs);
    forall got: seq<Record>, i | Reads(f, s, lines, got) && Chained(h, got, 0, "") && 0 <= i < |lines|
      ensures ReadLine(f, s, lines[i]) == Some(recs[i])
    {
      ReadsByLine(f, s, lines, got);
      ReadAlike(f, s, h, lines, recs, writers, got, i);
    }
  }

  lemma LinesAreWritten(f: Format, s: Sealer, lines: seq<string>, recs: seq<Record>, writers: seq<Sealer>)
    requires f.Lawful() && Wrote(f, lines, recs, writers) && AllAuthentic(f, s, writers)
    ensures forall i :: 0 <= i < |lines| ==> lines[i] != ""
    ensures forall i :: 0 <= i < |lines| ==> ReadLine(f, s, lines[i]) == None || ReadLine(f, s, lines[i]) == Some(recs[i].(body := f.again(recs[i].body)))
  {
    forall i | 0 <= i < |lines|
      ensures lines[i] != "" && (ReadLine(f, s, lines[i]) == None || ReadLine(f, s, lines[i]) == Some(recs[i].(body := f.again(recs[i].body))))
    {
      LineKeepsChain(f, writers[i], s, recs[i]);
    }
  }

  lemma ReadAlike(f: Format, s: Sealer, h: Hasher, lines: seq<string>, recs: seq<Record>, writers: seq<Sealer>, got: seq<Record>, i: nat)
    requires Injective(h) && f.Lawful() && Wrote(f, lines, recs, writers) && Chained(h, recs, 0, "") && AllAuthentic(f, s, writers)
    requires |got| == |lines| && LinesReadBack(f, s, lines, got) && Chained(h, got, 0, "") && i < |lines|
    ensures got[i] == recs[i]
  {
    LinesAreWritten(f, s, lines, recs, writers);
    assert ReadLine(f, s, lines[i]) == Some(got[i]);
    assert Held(h, recs, 0, "", i) && Held(h, got, 0, "", i);
    var a, b := recs[i], got[i];
    assert SameOrApart(h, a.number, a.body, a.prevHash, b.number, b.body, b.prevHash);
  }

  /** The file log: its lines, and where its chain stands in memory. */
  class Log {
    const hash: Hasher
    const format: Format
    const sealer: Sealer
    var lines: seq<string>
    var last: nat
    var head: string
    ghost var recs: seq<Record>
    ghost var writers: seq<Sealer>

    ghost predicate Honest()
      reads this
    {
      && Wrote(format, lines, recs, writers) && Chained(hash, recs, 0, "")
      && last == |recs| && head == Head(recs, "")
    }

    /** An honest file, opened where its chain stands. */
    constructor (h: Hasher, f: Format, s: Sealer, lines: seq<string>, last: nat, head: string, ghost recs: seq<Record>, ghost writers: seq<Sealer>)
      requires Wrote(f, lines, recs, writers) && Chained(h, recs, 0, "") && last == |recs| && head == Head(recs, "")
      ensures Honest() && hash == h && format == f && sealer == s && this.lines == lines && this.recs == recs && this.writers == writers
    {
      hash, format, sealer := h, f, s;
      this.lines, this.last, this.head, this.recs, this.writers := lines, last, head, recs, writers;
    }

    /** `Record`: a write that fails leaves the chain where it was. */
    method Record(body: Body, fails: bool)
      requires Honest()
      modifies this
      ensures Honest()
      ensures recs == old(recs) + if fails then [] else [Next(hash, old(recs), 0, "", body)]
      ensures lines == old(lines) + if fails then [] else [EncodeLine(format, sealer, format.toJson(recs[|recs| - 1]))]
    {
      if fails {
        return;
      }
      var rec := Audit.Record(last + 1, body, head, hash(last + 1, body, head));
      NextChains(hash, recs, 0, "", body);
      WroteOneMore(format, lines, recs, writers, rec, sealer);
      lines := lines + [EncodeLine(format, sealer, format.toJson(rec))];
      last, head, recs, writers := last + 1, rec.hash, recs + [rec], writers + [sealer];
    }
  }

  lemma WroteOneMore(f: Format, lines: seq<string>, recs: seq<Record>, writers: seq<Sealer>, r: Record, w: Sealer)
    requires Wrote(f, lines, recs, writers)
    ensures Wrote(f, lines + [EncodeLine(f, w, f.toJson(r))], recs + [r], writers + [w])
  {
  }

  /** What the reader gets of the records. */
  function AsRead(f: Format, recs: seq<Record>): (got: seq<Record>)
    ensures |got| == |recs| && forall i :: 0 <= i < |recs| ==> got[i] == recs[i].(body := f.again(recs[i].body))
  {
    seq(|recs|, i requires 0 <= i < |recs| => recs[i].(body := f.again(recs[i].body)))
  }

  lemma {:induction false} ReadsAsRead(f: Format, s: Sealer, lines: seq<string>, recs: seq<Record>, writers: seq<Sealer>)
    requires f.Lawful() && Wrote(f, lines, recs, writers) && AllAuthentic(f, s, writers)
    ensures Reads(f, s, lines, AsRead(f, recs)) <==> AllRead(f, s, lines)
    ensures Readable(f, s, lines) <==> AllRead(f, s, lines)
  {
    LinesAreWritten(f, s, lines, recs, writers);
    ReadsByLine(f, s, lines, AsRead(f, recs));
    forall other: seq<Record>, i | Reads(f, s, lines, other) && 0 <= i < |lines| ensures ReadLine(f, s, lines[i]).Some? {
      ReadsByLine(f, s, lines, other);
    }
  }

  lemma AsReadStands(f: Format, h: Hasher, recs: seq<Record>)
    requires Chained(h, recs, 0, "")
    ensures var got := AsRead(f, recs); Head(got, "") == Head(recs, "") && LastNumber(got) == |recs|
  {
    if recs != [] {
      assert Held(h, recs, 0, "", |recs| - 1);
    }
  }

  /** `Open` on an honest file, by a process with any sealer: it opens if and only if every line
      can be read, and then the chain is resumed exactly where its writers left it. */
  method Restart(log: Log, sealer: Sealer) returns (readable: bool, last: nat, head: string)
    requires log.Honest() && log.format.Lawful() && AllAuthentic(log.format, sealer, log.writers)
    ensures readable <==> AllRead(log.format, sealer, log.lines)
    ensures readable ==> last == log.last && head == log.head
  {
    ReadsAsRead(log.format, sealer, log.lines, log.recs, log.writers);
    AsReadStands(log.format, log.hash, log.recs);
    readable, last, head := Tail(log.format, sealer, log.lines);
  }

  method Reopen(log: Log, sealer: Sealer) returns (again: Option<Log>)
    requires log.Honest() && log.format.Lawful() && AllAuthentic(log.format, sealer, log.writers)
    ensures again.Some? <==> AllRead(log.format, sealer, log.lines)
    ensures again.Some? ==> fresh(again.value) && again.value.Honest() && again.value.sealer == sealer
    ensures again.Some? ==> again.value.recs == log.recs && again.value.lines == log.lines && again.value.head == log.head
  {
    var readable, last, head := Restart(log, sealer);
    if !readable {
      return None;
    }
    var reopened := new Log(log.hash, log.format, sealer, log.lines, last, head, log.recs, log.writers);
    again := Some(reopened);
  }

  /** Sealing may be turned on, or the key stay as it was: a reader with the writers' keys opens
      the file, and accepts it if and only if every body survives being read. */
  lemma KeyedReaderReadsBack(f: Format, s: Sealer, lines: seq<string>, recs: seq<Record>, writers: seq<Sealer>)
    requires f.Lawful() && Wrote(f, lines, recs, writers)
    requires forall i :: 0 <= i < |writers| && writers[i].enabled ==> HasKey(s, writers[i])
    ensures AllRead(f, s, lines)
    ensures LinesReadBack(f, s, lines, recs) <==> forall i :: 0 <= i < |recs| ==> f.again(recs[i].body) == recs[i].body
  {
    forall i | 0 <= i < |lines|
      ensures ReadLine(f, s, lines[i]).Some? && (ReadLine(f, s, lines[i]) == Some(recs[i]) <==> f.again(recs[i].body) == recs[i].body)
    {
      LineRoundTrips(f, writers[i], s, recs[i]);
    }
  }

  /** So for that reader an honest file verifies if and only if every body survives being read. */
  lemma KeyedReaderAccepts(f: Format, s: Sealer, h: Hasher, lines: seq<string>, recs: seq<Record>, writers: seq<Sealer>)
    requires Injective(h) && f.Lawful() && Wrote(f, lines, recs, writers) && Chained(h, recs, 0, "")
    requires forall i :: 0 <= i < |writers| && writers[i].enabled ==> HasKey(s, writers[i])
    ensures FileVerifies(f, s, h, lines) <==> forall i :: 0 <= i < |recs| ==> f.again(recs[i].body) == recs[i].body
  {
    forall i | 0 <= i < |writers| && writers[i].enabled ensures Authentic(f, s, writers[i]) {
      forall line ensures OpensOrFails(f, s, writers[i], line) {
        assert s.unseal(writers[i].seal(line)) == Some(line);
      }
    }
    KeyedReaderReadsBack(f, s, lines, recs, writers);
    HonestFileVerifies(f, s, h, lines, recs, writers);
  }
}

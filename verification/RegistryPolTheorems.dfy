/** Registry.pol: printing and parsing, and what is left of a file cut off anywhere. */
module RegistryPolTheorems {
  import opened Prelude
  import opened RegistryPol

  // ----- Truncation, for every file -----

  lemma {:induction false} FindNullInPrefix(buf: seq<Byte>, n: nat, pos: nat)
    requires n <= |buf|
    ensures FindNull(buf[..n], pos) ==
            match FindNull(buf, pos)
            case Some(p) => if p + 2 <= n then Some(p) else None
            case None => None
    decreases |buf| - pos
  {
    if pos + 1 < |buf| && !(buf[pos] == 0 && buf[pos + 1] == 0) { FindNullInPrefix(buf, n, pos + 2); }
  }

  lemma HasAtInPrefix(buf: seq<Byte>, n: nat, pos: nat, mark: seq<Byte>)
    requires n <= |buf|
    ensures HasAt(buf[..n], pos, mark) <==> HasAt(buf, pos, mark) && pos + |mark| <= n
  {
    if pos + |mark| <= n { assert buf[..n][pos..pos + |mark|] == buf[pos..pos + |mark|]; }
  }

  /** A string followed by a separator reads the same in a prefix that holds both, and fails in a shorter one. */
  lemma ReadNullInPrefix(buf: seq<Byte>, n: nat, pos: nat)
    requires pos <= n <= |buf|
    ensures var whole, cut := ReadNull(buf, pos), ReadNull(buf[..n], pos);
            if HasAt(buf, whole.1, SEP) && whole.1 + 2 <= n then cut == whole && HasAt(buf[..n], cut.1, SEP)
            else !HasAt(buf[..n], cut.1, SEP)
  {
    FindNullInPrefix(buf, n, pos);
    var whole, cut := ReadNull(buf, pos), ReadNull(buf[..n], pos);
    HasAtInPrefix(buf, n, whole.1, SEP);
    match FindNull(buf, pos)
    case Some(p) => if p + 2 <= n { assert buf[..n][pos..p] == buf[pos..p]; }
    case None =>
  }

  /** A record of a file is a record of a prefix exactly when it ends within the prefix. */
  lemma RecordInPrefix(buf: seq<Byte>, n: nat, pos: nat)
    requires pos <= n <= |buf|
    ensures ParseRecord(buf[..n], pos) ==
            match ParseRecord(buf, pos)
            case Some(p) => if p.end <= n then Some(p) else None
            case None => None
  {
    hide FindNull, ReadNull, HasAt, ParseTail;
    var cut := buf[..n];
    var (key, p1) := ReadNull(buf, pos);
    ReadNullInPrefix(buf, n, pos);
    if HasAt(cut, ReadNull(cut, pos).1, SEP) {
      var (name, p2) := ReadNull(buf, p1 + 2);
      ReadNullInPrefix(buf, n, p1 + 2);
      if HasAt(cut, ReadNull(cut, p1 + 2).1, SEP) {
        NumbersInPrefix(buf, n, p2 + 2);
      }
    }
  }

  lemma NumbersInPrefix(buf: seq<Byte>, n: nat, p3: nat)
    requires n <= |buf|
    ensures ParseTail(buf[..n], p3) ==
            match ParseTail(buf, p3)
            case Some(r) => if r.2 <= n then Some(r) else None
            case None => None
  {
    HasAtInPrefix(buf, n, p3 + 4, SEP);
    HasAtInPrefix(buf, n, p3 + 10, SEP);
    if p3 + 10 <= n {
      var size, p5 := Dword(buf, p3 + 6), p3 + 12;
      HasAtInPrefix(buf, n, p5 + size, CLOSE);
      if p5 + size <= n { assert buf[..n][p5..p5 + size] == buf[p5..p5 + size]; }
    }
  }

  ghost predicate Within(placed: seq<Placed>, n: nat, m: nat) {
    && m <= |placed|
    && (forall i :: 0 <= i < m ==> placed[i].end <= n)
    && (forall i :: m <= i < |placed| ==> n < placed[i].end)
  }

  lemma {:induction false} EndsGrow(buf: seq<Byte>, pos: nat)
    ensures forall i :: 0 <= i < |ParseFrom(buf, pos)| ==> pos + 2 < ParseFrom(buf, pos)[i].end
    decreases |buf| - pos
  {
    if pos + 1 >= |buf| {
    } else if !HasAt(buf, pos, OPEN) {
      EndsGrow(buf, pos + 1);
    } else if ParseRecord(buf, pos + 2).Some? {
      EndsGrow(buf, ParseRecord(buf, pos + 2).value.end);
    }
  }

  lemma {:induction false} ParseInPrefix(buf: seq<Byte>, n: nat, pos: nat) returns (m: nat)
    requires n <= |buf|
    ensures Within(ParseFrom(buf, pos), n, m)
    ensures ParseFrom(buf[..n], pos) == ParseFrom(buf, pos)[..m]
    decreases |buf| - pos
  {
    hide HasAt, ParseRecord;
    m := 0;
    EndsGrow(buf, pos);
    if pos + 1 >= |buf| || pos + 1 >= n {
    } else {
      HasAtInPrefix(buf, n, pos, OPEN);
      if !HasAt(buf, pos, OPEN) {
        m := ParseInPrefix(buf, n, pos + 1);
      } else {
        RecordInPrefix(buf, n, pos + 2);
        match ParseRecord(buf, pos + 2) {
          case None =>
          case Some(p) =>
            EndsGrow(buf, p.end);
            if p.end <= n {
              var rest := ParseInPrefix(buf, n, p.end);
              m := rest + 1;
              assert ([p] + ParseFrom(buf, p.end))[..m] == [p] + ParseFrom(buf, p.end)[..rest];
            }
        }
      }
    }
  }

  /** Any file cut after `n` bytes yields exactly the records of the whole file that end within those bytes. */
  lemma Truncation(buf: seq<Byte>, n: nat) returns (m: nat)
    requires n <= |buf|
    ensures Within(Located(buf), n, m) && Located(buf[..n]) == Located(buf)[..m]
  {
    HasAtInPrefix(buf, n, 0, SIGNATURE);
    if BodyStart(buf[..n]) == BodyStart(buf) {
      m := ParseInPrefix(buf, n, BodyStart(buf));
    } else {
      m := 0;
      EndsGrow(buf, 8);
      SignatureHasNoRecord(buf, n, 0);
    }
  }

  /** Inside the signature there is no opening bracket. */
  lemma {:induction false} SignatureHasNoRecord(buf: seq<Byte>, n: nat, pos: nat)
    requires HasAt(buf, 0, SIGNATURE) && n < 4 && n <= |buf|
    ensures ParseFrom(buf[..n], pos) == []
    decreases n - pos
  {
    if pos + 1 < n {
      assert buf[pos] == buf[0..4][pos];
      assert buf[..n][pos..pos + 2][0] == buf[pos];
      SignatureHasNoRecord(buf, n, pos + 1);
    }
  }

  // ----- Printing -----

  function Bytes(v: nat): (b: seq<Byte>)
    requires v < 0x1_0000_0000
    ensures |b| == 4
  {
    [v % 0x100, v / 0x100 % 0x100, v / 0x1_0000 % 0x100, v / 0x100_0000]
  }

  /** Whole code units, none of them NUL. */
  predicate IsText(s: seq<Byte>) {
    |s| % 2 == 0 && forall i :: 0 <= i < |s| && i % 2 == 0 ==> s[i] != 0 || s[i + 1] != 0
  }

  predicate Printable(r: Record) {
    IsText(r.key) && IsText(r.valueName) && r.typeCode < 0x1_0000_0000 && |r.data| < 0x1_0000_0000
  }

  function PrintTail(r: Record): seq<Byte>
    requires Printable(r)
  {
    Bytes(r.typeCode) + (SEP + (Bytes(|r.data|) + (SEP + (r.data + CLOSE))))
  }

  function PrintRecord(r: Record): seq<Byte>
    requires Printable(r)
  {
    OPEN + ((r.key + NULL) + (SEP + ((r.valueName + NULL) + (SEP + PrintTail(r)))))
  }

  function PrintAll(rs: seq<Record>): seq<Byte>
    requires forall i :: 0 <= i < |rs| ==> Printable(rs[i])
  {
    if rs == [] then [] else PrintRecord(rs[0]) + PrintAll(rs[1..])
  }

  function PrintFile(rs: seq<Record>, header: bool): seq<Byte>
    requires forall i :: 0 <= i < |rs| ==> Printable(rs[i])
  {
    (if header then SIGNATURE + VERSION else []) + PrintAll(rs)
  }

  lemma HasAtParts(buf: seq<Byte>, pos: nat, a: seq<Byte>, b: seq<Byte>)
    requires HasAt(buf, pos, a + b)
    ensures HasAt(buf, pos, a) && HasAt(buf, pos + |a|, b)
  {
    assert buf[pos..pos + |a|] == buf[pos..pos + |a + b|][..|a|];
    assert buf[pos + |a|..pos + |a| + |b|] == buf[pos..pos + |a + b|][|a|..];
  }

  lemma {:induction false} FindPrintedNull(buf: seq<Byte>, pos: nat, text: seq<Byte>)
    requires HasAt(buf, pos, text + NULL) && IsText(text)
    ensures FindNull(buf, pos) == Some(pos + |text|)
    decreases |text|
  {
    var all := text + NULL;
    assert buf[pos] == buf[pos..pos + |all|][0] && buf[pos + 1] == buf[pos..pos + |all|][1];
    if text != [] {
      assert all == text[..2] + (text[2..] + NULL);
      HasAtParts(buf, pos, text[..2], text[2..] + NULL);
      FindPrintedNull(buf, pos + 2, text[2..]);
    }
  }

  lemma ReadPrintedText(buf: seq<Byte>, pos: nat, text: seq<Byte>)
    requires pos <= |buf| && HasAt(buf, pos, text + NULL) && IsText(text)
    ensures ReadNull(buf, pos) == (text, pos + |text| + 2)
  {
    FindPrintedNull(buf, pos, text);
    HasAtParts(buf, pos, text, NULL);
  }

  lemma ReadPrintedNumber(buf: seq<Byte>, pos: nat, v: nat)
    requires v < 0x1_0000_0000 && HasAt(buf, pos, Bytes(v))
    ensures Dword(buf, pos) == v
  {
    var b := Bytes(v);
    assert forall i :: 0 <= i < 4 ==> buf[pos + i] == buf[pos..pos + 4][i] == b[i];
    assert buf[pos] == b[0] && buf[pos + 1] == b[1] && buf[pos + 2] == b[2] && buf[pos + 3] == b[3];
  }

  lemma ReadPrintedTail(buf: seq<Byte>, pos: nat, r: Record)
    requires Printable(r) && HasAt(buf, pos, PrintTail(r))
    ensures ParseTail(buf, pos) == Some((r.typeCode, r.data, pos + |PrintTail(r)|))
  {
    hide Bytes, Dword;
    var size := |r.data|;
    HasAtParts(buf, pos, Bytes(r.typeCode), SEP + (Bytes(size) + (SEP + (r.data + CLOSE))));
    HasAtParts(buf, pos + 4, SEP, Bytes(size) + (SEP + (r.data + CLOSE)));
    HasAtParts(buf, pos + 6, Bytes(size), SEP + (r.data + CLOSE));
    HasAtParts(buf, pos + 10, SEP, r.data + CLOSE);
    HasAtParts(buf, pos + 12, r.data, CLOSE);
    ReadPrintedNumber(buf, pos, r.typeCode);
    ReadPrintedNumber(buf, pos + 6, size);
  }

  /** Where the fields of a printed record stand. */
  lemma RecordParts(buf: seq<Byte>, pos: nat, r: Record)
    requires Printable(r) && HasAt(buf, pos, PrintRecord(r))
    ensures var p1 := pos + 2 + |r.key| + 2;
            var p2 := p1 + 2 + |r.valueName| + 2;
            && HasAt(buf, pos, OPEN) && HasAt(buf, pos + 2, r.key + NULL) && HasAt(buf, p1, SEP)
            && HasAt(buf, p1 + 2, r.valueName + NULL) && HasAt(buf, p2, SEP) && HasAt(buf, p2 + 2, PrintTail(r))
            && pos + |PrintRecord(r)| == p2 + 2 + |PrintTail(r)| <= |buf|
  {
    hide PrintTail, HasAt;
    var tail := PrintTail(r);
    var p1 := pos + 2 + |r.key| + 2;
    var p2 := p1 + 2 + |r.valueName| + 2;
    HasAtParts(buf, pos, OPEN, (r.key + NULL) + (SEP + ((r.valueName + NULL) + (SEP + tail))));
    HasAtParts(buf, pos + 2, r.key + NULL, SEP + ((r.valueName + NULL) + (SEP + tail)));
    HasAtParts(buf, p1, SEP, (r.valueName + NULL) + (SEP + tail));
    HasAtParts(buf, p1 + 2, r.valueName + NULL, SEP + tail);
    HasAtParts(buf, p2, SEP, tail);
    HasAtFits(buf, p2 + 2, tail);
  }

  lemma ReadPrintedRecord(buf: seq<Byte>, pos: nat, r: Record)
    requires Printable(r) && HasAt(buf, pos, PrintRecord(r))
    ensures HasAt(buf, pos, OPEN) && pos + 2 <= |buf|
    ensures ParseRecord(buf, pos + 2) == Some(Placed(r, pos + |PrintRecord(r)|))
  {
    hide PrintTail, PrintRecord, ParseTail, ReadNull, HasAt, IsText;
    RecordParts(buf, pos, r);
    var p1 := pos + 2 + |r.key| + 2;
    ReadPrintedText(buf, pos + 2, r.key);
    ReadPrintedText(buf, p1 + 2, r.valueName);
    ReadPrintedTail(buf, p1 + 2 + |r.valueName| + 2 + 2, r);
  }

  lemma HasAtFits(buf: seq<Byte>, pos: nat, mark: seq<Byte>)
    requires HasAt(buf, pos, mark)
    ensures pos + |mark| <= |buf|
  {
  }

  /** The printed records and where each of them ends. */
  function Places(rs: seq<Record>, pos: nat): (ps: seq<Placed>)
    requires forall i :: 0 <= i < |rs| ==> Printable(rs[i])
    ensures RecordsOf(ps) == rs
  {
    if rs == [] then []
    else
      var end := pos + |PrintRecord(rs[0])|;
      [Placed(rs[0], end)] + Places(rs[1..], end)
  }

  lemma {:induction false} ParsePrinted(buf: seq<Byte>, pos: nat, rs: seq<Record>)
    requires forall i :: 0 <= i < |rs| ==> Printable(rs[i])
    requires HasAt(buf, pos, PrintAll(rs)) && pos + |PrintAll(rs)| == |buf|
    ensures ParseFrom(buf, pos) == Places(rs, pos)
    decreases |rs|
  {
    hide HasAt, ParseRecord, PrintRecord, Printable;
    if rs != [] {
      HasAtParts(buf, pos, PrintRecord(rs[0]), PrintAll(rs[1..]));
      ReadPrintedRecord(buf, pos, rs[0]);
      ParsePrinted(buf, pos + |PrintRecord(rs[0])|, rs[1..]);
    }
  }

  /** Parsing a printed file, with or without the header, gives back its records and where they end. */
  lemma RoundTrip(rs: seq<Record>, header: bool)
    requires forall i :: 0 <= i < |rs| ==> Printable(rs[i])
    ensures Located(PrintFile(rs, header)) == Places(rs, if header then 8 else 0)
    ensures RecordsOf(Located(PrintFile(rs, header))) == rs
  {
    hide PrintRecord, Printable, ParseFrom, BodyStart, Places;
    var file, start := PrintFile(rs, header), if header then 8 else 0;
    BodyStartsAt(rs, header);
    BodyIsPrinted(rs, header);
    ParsePrinted(file, start, rs);
  }

  lemma BodyIsPrinted(rs: seq<Record>, header: bool)
    requires forall i :: 0 <= i < |rs| ==> Printable(rs[i])
    ensures var start := if header then 8 else 0;
            HasAt(PrintFile(rs, header), start, PrintAll(rs)) && start + |PrintAll(rs)| == |PrintFile(rs, header)|
  {
    hide PrintRecord, Printable, PrintAll;
    var file, start := PrintFile(rs, header), if header then 8 else 0;
    assert file[start..] == PrintAll(rs);
  }

  lemma BodyStartsAt(rs: seq<Record>, header: bool)
    requires forall i :: 0 <= i < |rs| ==> Printable(rs[i])
    ensures BodyStart(PrintFile(rs, header)) == if header then 8 else 0
  {
    hide PrintTail, Printable;
    var file := PrintFile(rs, header);
    if header {
      assert file[0..4] == SIGNATURE;
    } else if rs != [] {
      assert file[0] == 0x5b;
      assert |file| >= 4 ==> file[0..4][0] == file[0];
    }
  }

  /** A printed file cut after any number of bytes gives exactly the records printed wholly within them. */
  lemma PrintedTruncation(rs: seq<Record>, header: bool, n: nat) returns (m: nat)
    requires forall i :: 0 <= i < |rs| ==> Printable(rs[i])
    requires n <= |PrintFile(rs, header)|
    ensures Within(Places(rs, if header then 8 else 0), n, m)
    ensures RecordsOf(Located(PrintFile(rs, header)[..n])) == rs[..m]
  {
    hide PrintFile, Printable, Located, Places;
    RoundTrip(rs, header);
    m := Truncation(PrintFile(rs, header), n);
  }
}

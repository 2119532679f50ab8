/** The reader of size-framed `cat-file --batch` output. */
module CatFile {
  import opened Prelude
  import opened Text

  // ----- Decimal numbers -----

  function Digit(d: nat): char
    requires d < 10
  {
    (d + '0' as int) as char
  }

  function Digits(n: nat): (s: string)
    ensures s != ""
  {
    if n < 10 then [Digit(n)] else Digits(n / 10) + [Digit(n % 10)]
  }

  function ParseNat(s: string): Option<nat> {
    if s == "" then None
    else
      var c := s[|s| - 1];
      if !('0' <= c <= '9') then None
      else if |s| == 1 then Some(c as int - '0' as int)
      else
        match ParseNat(s[..|s| - 1])
        case None => None
        case Some(high) => Some(10 * high + (c as int - '0' as int))
  }

  lemma {:induction false} DigitsRoundTrip(n: nat)
    ensures ParseNat(Digits(n)) == Some(n)
    ensures forall i :: 0 <= i < |Digits(n)| ==> '0' <= Digits(n)[i] <= '9'
  {
    if n >= 10 {
      DigitsRoundTrip(n / 10);
      assert Digits(n)[..|Digits(n)| - 1] == Digits(n / 10);
    }
  }

  // ----- One framed object -----

  /** The non-empty fields of a header line. */
  function Fields(parts: seq<string>): seq<string> {
    if parts == [] then [] else (if parts[0] == "" then [] else [parts[0]]) + Fields(parts[1..])
  }

  function Clamp(n: nat, limit: nat): (r: nat)
    ensures r <= limit && r <= n && (n <= limit ==> r == n) && (n > limit ==> r == limit)
  {
    if n <= limit then n else limit
  }

  function Size(header: string): Option<nat> {
    var fields := Fields(Split(header, ' '));
    if |fields| < 3 then None else ParseNat(fields[2])
  }

  /** The contents of `count` objects framed from `pos` on; nothing when a header is missing or malformed. */
  function ReadFrom(out: string, pos: nat, count: nat): (r: Option<seq<string>>)
    ensures r.Some? ==> |r.value| == count
    decreases count
  {
    if count == 0 then Some([])
    else if pos > |out| then None
    else
      var end := pos + |Head(out[pos..], '\n')|;
      if end == |out| || Size(out[pos..end]).None? then None
      else
        var start := end + 1;
        var stop := start + Size(out[pos..end]).value;
        match ReadFrom(out, stop + 1, count - 1)
        case None => None
        case Some(rest) => Some([out[start..Clamp(stop, |out|)]] + rest)
  }

  /** What each distinct blob holds, read in the order in which the blobs were asked for. */
  method ReadBatch(out: string, blobs: seq<string>) returns (contents: Option<map<string, string>>)
    requires forall i, j :: 0 <= i < j < |blobs| ==> blobs[i] != blobs[j]
    ensures contents.None? <==> ReadFrom(out, 0, |blobs|).None?
    ensures contents.Some? ==>
              && contents.value.Keys == (set i | 0 <= i < |blobs| :: blobs[i])
              && forall i :: 0 <= i < |blobs| ==> contents.value[blobs[i]] == ReadFrom(out, 0, |blobs|).value[i]
  {
    hide Size, Head, Clamp;
    var found: map<string, string> := map[];
    ghost var texts: seq<string> := [];
    assert forall rest: seq<string> :: [] + rest == rest;
    var pos := 0;
    for k := 0 to |blobs|
      invariant 0 <= pos && |texts| == k
      invariant match ReadFrom(out, pos, |blobs| - k)
                case None => ReadFrom(out, 0, |blobs|).None?
                case Some(rest) => ReadFrom(out, 0, |blobs|) == Some(texts + rest)
      invariant found.Keys == set i | 0 <= i < k :: blobs[i]
      invariant forall i :: 0 <= i < k ==> found[blobs[i]] == texts[i]
    {
      if pos > |out| { return None; }
      var end := pos + |Head(out[pos..], '\n')|;
      if end == |out| { return None; }
      var size := Size(out[pos..end]);
      if size.None? { return None; }
      var data := out[end + 1..Clamp(end + 1 + size.value, |out|)];
      ghost var rest := ReadFrom(out, end + 1 + size.value + 1, |blobs| - k - 1);
      if rest.Some? { assert texts + ([data] + rest.value) == (texts + [data]) + rest.value; }
      pos := end + 1 + size.value + 1;
      found := found[blobs[k] := data];
      texts := texts + [data];
    }
    contents := Some(found);
  }

  // ----- Round trip -----

  function Header(oid: string, data: string): string {
    oid + " " + ("blob" + " " + Digits(|data|))
  }

  function Frame(oid: string, data: string): string {
    Header(oid, data) + "\n" + (data + "\n")
  }

  function PrintBatch(oids: seq<string>, texts: seq<string>): string
    requires |oids| == |texts|
  {
    if oids == [] then "" else Frame(oids[0], texts[0]) + PrintBatch(oids[1..], texts[1..])
  }

  predicate IsOid(oid: string) {
    oid != "" && ' ' !in oid && '\n' !in oid
  }

  lemma NoSpaceInDigits(n: nat)
    ensures ' ' !in Digits(n) && '\n' !in Digits(n)
  {
    DigitsRoundTrip(n);
  }

  lemma ThreeFields(a: string, b: string, c: string)
    requires a != "" && b != "" && c != ""
    ensures Fields([a, b, c]) == [a, b, c]
  {
    assert [a, b, c][1..] == [b, c] && [b, c][1..] == [c] && [c][1..] == [];
    assert Fields([c]) == [c];
    assert Fields([b, c]) == [b] + Fields([c]);
  }

  lemma HeaderGivesSize(oid: string, data: string)
    requires IsOid(oid)
    ensures Size(Header(oid, data)) == Some(|data|) && '\n' !in Header(oid, data)
  {
    hide Digits, ParseNat, Split, Fields;
    var digits := Digits(|data|);
    DigitsRoundTrip(|data|);
    NoSpaceInDigits(|data|);
    SplitAt(oid, ' ', "blob" + " " + digits);
    SplitAt("blob", ' ', digits);
    SplitAt(digits, ' ', "");
    assert Split(Header(oid, data), ' ') == [oid] + (["blob"] + [digits]) == [oid, "blob", digits];
    ThreeFields(oid, "blob", digits);
  }

  /** Reading one frame: where its header line ends and what follows it. */
  lemma FrameReads(before: string, oid: string, data: string, rest: string)
    requires IsOid(oid)
    ensures var out := before + Frame(oid, data) + rest;
            var end := |before| + |Header(oid, data)|;
            && end + 1 + |data| + 1 <= |out|
            && Head(out[|before|..], '\n') == Header(oid, data) && out[|before|..end] == Header(oid, data)
            && out[end + 1..end + 1 + |data|] == data
  {
    hide Header, Head, IsOid;
    var header, out := Header(oid, data), before + Frame(oid, data) + rest;
    HeaderGivesSize(oid, data);
    assert out[|before|..] == header + ['\n'] + (data + "\n" + rest);
    HeadOf(header, '\n', data + "\n" + rest);
  }

  /** Framing by size survives any content: line breaks, headers and the declaration's own text included. */
  lemma {:induction false} BatchRoundTrip(before: string, oids: seq<string>, texts: seq<string>)
    requires |oids| == |texts| && forall i :: 0 <= i < |oids| ==> IsOid(oids[i])
    ensures ReadFrom(before + PrintBatch(oids, texts), |before|, |oids|) == Some(texts)
    decreases |oids|
  {
    hide Size, Clamp, Header, IsOid, Head, Frame;
    if oids == [] {
      assert ReadFrom(before + PrintBatch(oids, texts), |before|, 0) == Some([]);
    } else {
      hide ReadFrom;
      var frame, rest := Frame(oids[0], texts[0]), PrintBatch(oids[1..], texts[1..]);
      var out := before + PrintBatch(oids, texts);
      BatchOpens(before, oids, texts);
      FrameReads(before, oids[0], texts[0], rest);
      HeaderGivesSize(oids[0], texts[0]);
      FrameLength(oids[0], texts[0]);
      BatchRoundTrip(before + frame, oids[1..], texts[1..]);
      ReadOne(out, |before|, |Header(oids[0], texts[0])|, |texts[0]|, |oids|);
      assert [texts[0]] + texts[1..] == texts;
    }
  }

  lemma BatchOpens(before: string, oids: seq<string>, texts: seq<string>)
    requires |oids| == |texts| > 0
    ensures before + PrintBatch(oids, texts) == before + Frame(oids[0], texts[0]) + PrintBatch(oids[1..], texts[1..])
  {
    hide Frame;
  }

  lemma ReadOne(out: string, pos: nat, header: nat, size: nat, count: nat)
    requires count > 0 && pos + header + 1 + size + 1 <= |out|
    requires |Head(out[pos..], '\n')| == header && Size(out[pos..pos + header]) == Some(size)
    ensures var start := pos + header + 1;
            ReadFrom(out, pos, count) ==
            match ReadFrom(out, start + size + 1, count - 1)
            case None => None
            case Some(rest) => Some([out[start..start + size]] + rest)
  {
    hide Size, Head;
  }

  lemma FrameLength(oid: string, data: string)
    ensures |Frame(oid, data)| == |Header(oid, data)| + 1 + |data| + 1
  {
  }
}

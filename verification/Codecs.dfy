/** The two textual codecs of the HTTP proxy: the per-node pool key carried as
    a URI host, and the W3C trace context header. */
module Codecs {
  import opened Common
  import opened Text

  newtype Byte = x: int | 0 <= x < 256

  // Hexadecimal

  function Digit(n: int): (c: char)
    requires 0 <= n < 16
  {
    "0123456789abcdef"[n]
  }

  predicate IsLowerHex(c: char)
  {
    '0' <= c <= '9' || 'a' <= c <= 'f'
  }

  /** Value of one digit, in either case. */
  function DigitValue(c: char): (r: Option<nat>)
    ensures r.Some? ==> r.value < 16
  {
    if '0' <= c <= '9' then Some(c as int - '0' as int)
    else if 'a' <= c <= 'f' then Some(c as int - 'a' as int + 10)
    else if 'A' <= c <= 'F' then Some(c as int - 'A' as int + 10)
    else None
  }

  /** Two characters as a byte; like the standard parser, a leading plus sign
      is accepted. */
  function PairValue(hi: char, lo: char): Option<Byte>
  {
    match DigitValue(lo)
    case None => None
    case Some(l) =>
      if hi == '+' then Some(l as Byte)
      else
        match DigitValue(hi)
        case None => None
        case Some(h) => Some((16 * h + l) as Byte)
  }

  function Hex(bytes: seq<Byte>): (s: string)
    ensures |s| == 2 * |bytes|
    ensures forall c :: c in s ==> IsLowerHex(c)
  {
    if bytes == [] then ""
    else
      var b := bytes[0] as int;
      DigitIsHex(b / 16);
      DigitIsHex(b % 16);
      [Digit(b / 16), Digit(b % 16)] + Hex(bytes[1..])
  }

  lemma {:induction false} DigitIsHex(n: int)
    requires 0 <= n < 16
    ensures IsLowerHex(Digit(n)) && DigitValue(Digit(n)) == Some(n)
    ensures Digit(n) == '0' <==> n == 0
  {
    assert n in {0, 1, 2, 3, 4, 5, 6, 7, 8, 9, 10, 11, 12, 13, 14, 15};
  }

  function DecodeHex(s: string): Option<seq<Byte>>
    requires |s| % 2 == 0
  {
    if s == "" then Some([])
    else
      match PairValue(s[0], s[1])
      case None => None
      case Some(b) =>
        match DecodeHex(s[2..])
        case None => None
        case Some(rest) => Some([b] + rest)
  }

  lemma {:induction false} PairRoundTrip(b: Byte)
    ensures PairValue(Digit(b as int / 16), Digit(b as int % 16)) == Some(b)
  {
    DigitIsHex(b as int / 16);
    DigitIsHex(b as int % 16);
  }

  lemma {:induction false} HexRoundTrip(bytes: seq<Byte>)
    ensures DecodeHex(Hex(bytes)) == Some(bytes)
  {
    hide PairValue, Digit;
    if bytes != [] {
      HexRoundTrip(bytes[1..]);
      PairRoundTrip(bytes[0]);
      assert Hex(bytes)[2..] == Hex(bytes[1..]);
      assert bytes == [bytes[0]] + bytes[1..];
    }
  }

  // Node ids as hosts

  const LABEL: nat := 62
  const SUFFIX: string := "stouter"

  function Chunks(s: string): (r: seq<string>)
    ensures forall i :: 0 <= i < |r| ==> 0 < |r[i]| <= 62
    ensures forall i :: 0 <= i < |r| - 1 ==> |r[i]| == 62
    ensures Concat(r) == s
    ensures forall i, c :: 0 <= i < |r| && c in r[i] ==> c in s
  {
    if s == "" then []
    else if |s| <= LABEL then
      assert [s][1..] == [];
      [s]
    else
      var r := Chunks(s[LABEL..]);
      assert ([s[..LABEL]] + r)[1..] == r;
      assert s == s[..LABEL] + s[LABEL..];
      [s[..LABEL]] + r
  }

  /** The URI host that keys the connection pool of a node. */
  function NodeHost(id: seq<Byte>): string
  {
    Join(Chunks(Hex(id)), '.') + "." + SUFFIX
  }

  function StripSuffix(s: string, suffix: string): Option<string>
  {
    if |suffix| <= |s| && s[|s|-|suffix|..] == suffix then Some(s[..|s|-|suffix|]) else None
  }

  /** The node id addressed by a host; `utf8` says which bytes are text. */
  function NodeIdFromHost(host: string, utf8: seq<Byte> -> bool): Option<seq<Byte>>
  {
    match StripSuffix(host, SUFFIX)
    case None => None
    case Some(rest) =>
      match StripSuffix(rest, ".")
      case None => None
      case Some(labels) =>
        var hex := Concat(Split(labels, '.'));
        if |hex| % 2 != 0 then None
        else
          match DecodeHex(hex)
          case None => None
          case Some(bytes) => if utf8(bytes) then Some(bytes) else None
  }

  lemma {:induction false} LabelsRoundTrip(s: string)
    requires '.' !in s
    ensures Concat(Split(Join(Chunks(s), '.'), '.')) == s
  {
    var ps := Chunks(s);
    if ps == [] {
      assert Split("", '.') == [""];
      assert Concat([""]) == "";
    } else {
      forall i | 0 <= i < |ps|
        ensures '.' !in ps[i]
      {
      }
      SplitJoin(ps, '.');
    }
  }

  /** Every node id survives the trip through its host, whatever its length. */
  lemma {:induction false} NodeHostRoundTrip(id: seq<Byte>, utf8: seq<Byte> -> bool)
    requires utf8(id)
    ensures NodeIdFromHost(NodeHost(id), utf8) == Some(id)
  {
    hide Chunks, Split, Join, Concat, Hex, DecodeHex;
    var labels := Join(Chunks(Hex(id)), '.');
    var rest := labels + ".";
    var host := rest + SUFFIX;
    assert NodeHost(id) == host;
    assert host[|host|-|SUFFIX|..] == SUFFIX && host[..|host|-|SUFFIX|] == rest;
    assert rest[|rest|-1..] == "." && rest[..|rest|-1] == labels;
    assert !IsLowerHex('.');
    LabelsRoundTrip(Hex(id));
    HexRoundTrip(id);
  }

  /** The host's labels are the chunks and the suffix, each short enough for a
      name label (63 octets, section 2.3.4 of RFC 1035). */
  lemma {:induction false} NodeHostLabels(id: seq<Byte>)
    requires id != []
    ensures Split(NodeHost(id), '.') == Chunks(Hex(id)) + [SUFFIX]
    ensures forall i :: 0 <= i < |Chunks(Hex(id)) + [SUFFIX]| ==> 0 < |(Chunks(Hex(id)) + [SUFFIX])[i]| <= 63
  {
    hide Chunks, Split, Join, Hex;
    var chunks := Chunks(Hex(id));
    assert |Hex(id)| > 0;
    assert !IsLowerHex('.');
    assert Concat([]) == "";
    JoinSnoc(chunks, SUFFIX, '.');
    SplitJoin(chunks + [SUFFIX], '.');
  }

  /** Distinct node ids never share a pool key. */
  lemma {:induction false} NodeHostsDistinct(a: seq<Byte>, b: seq<Byte>)
    requires NodeHost(a) == NodeHost(b)
    ensures a == b
  {
    var utf8 := (bytes: seq<Byte>) => true;
    NodeHostRoundTrip(a, utf8);
    NodeHostRoundTrip(b, utf8);
  }

  // Trace context

  datatype TraceContext = TraceContext(traceId: string, spanId: string, flags: string)

  predicate IsHex(s: string, n: nat)
  {
    |s| == n && forall c :: c in s ==> IsLowerHex(c)
  }

  predicate NotZero(s: string)
  {
    exists i :: 0 <= i < |s| && s[i] != '0'
  }

  predicate ValidContext(t: TraceContext)
  {
    IsHex(t.traceId, 32) && NotZero(t.traceId) && IsHex(t.spanId, 16) && NotZero(t.spanId) && IsHex(t.flags, 2)
  }

  predicate IsSpace(c: char)
  {
    c == ' ' || c == '\t' || c == '\n' || c == '\r'
  }

  function TrimStart(s: string): string
  {
    if s != "" && IsSpace(s[0]) then TrimStart(s[1..]) else s
  }

  function TrimEnd(s: string): string
  {
    if s != "" && IsSpace(s[|s|-1]) then TrimEnd(s[..|s|-1]) else s
  }

  function Trim(s: string): string
  {
    TrimEnd(TrimStart(s))
  }

  function Parse(header: string): Option<TraceContext>
  {
    var parts := Split(Trim(header), '-');
    if |parts| < 4 then None
    else if parts[0] == "00" && |parts| > 4 then None
    else
      var t := TraceContext(parts[1], parts[2], parts[3]);
      if IsHex(parts[0], 2) && parts[0] != "ff" && ValidContext(t) then Some(t) else None
  }

  function Print(t: TraceContext): string
  {
    "00-" + t.traceId + "-" + t.spanId + "-" + t.flags
  }

  lemma {:induction false} PrintParts(t: TraceContext)
    requires '-' !in t.traceId && '-' !in t.spanId && '-' !in t.flags
    ensures Split(Print(t), '-') == ["00", t.traceId, t.spanId, t.flags]
    ensures Print(t) == Join(["00", t.traceId, t.spanId, t.flags], '-')
  {
    var ps := ["00", t.traceId, t.spanId, t.flags];
    assert ps[1..] == [t.traceId, t.spanId, t.flags];
    assert ps[1..][1..] == [t.spanId, t.flags];
    assert ps[1..][1..][1..] == [t.flags];
    assert Join([t.spanId, t.flags], '-') == t.spanId + "-" + t.flags;
    assert Join(ps[1..], '-') == t.traceId + "-" + (t.spanId + "-" + t.flags);
    assert Join(ps, '-') == "00" + "-" + (t.traceId + "-" + (t.spanId + "-" + t.flags));
    assert Print(t) == Join(ps, '-');
    SplitJoin(ps, '-');
  }

  lemma {:induction false} TrimIsIdentity(s: string)
    requires s != "" && !IsSpace(s[0]) && !IsSpace(s[|s|-1])
    ensures Trim(s) == s
  {
  }

  ghost predicate AllSpace(s: string)
  {
    forall i :: 0 <= i < |s| ==> s[i] == ' ' || s[i] == '\t' || s[i] == '\n' || s[i] == '\r'
  }

  lemma {:induction false} TrimStartTakes(s: string) returns (a: string)
    ensures s == a + TrimStart(s) && AllSpace(a)
    ensures TrimStart(s) != "" ==> !IsSpace(TrimStart(s)[0])
  {
    a := "";
    if s != "" && IsSpace(s[0]) {
      var b := TrimStartTakes(s[1..]);
      a := [s[0]] + b;
      assert s == [s[0]] + s[1..];
    }
  }

  lemma {:induction false} TrimEndTakes(s: string) returns (b: string)
    ensures s == TrimEnd(s) + b && AllSpace(b)
    ensures TrimEnd(s) != "" ==> !IsSpace(TrimEnd(s)[|TrimEnd(s)|-1])
  {
    b := "";
    if s != "" && IsSpace(s[|s|-1]) {
      var c := TrimEndTakes(s[..|s|-1]);
      b := c + [s[|s|-1]];
      assert s == s[..|s|-1] + [s[|s|-1]];
    }
  }

  /** Trimming takes white space off both ends, all of it and nothing else. */
  lemma {:induction false} TrimTakesSpace(s: string) returns (a: string, b: string)
    ensures s == a + Trim(s) + b && AllSpace(a) && AllSpace(b)
    ensures Trim(s) != "" ==> !AllSpace([Trim(s)[0]]) && !AllSpace([Trim(s)[|Trim(s)|-1]])
  {
    hide TrimStart, TrimEnd;
    a := TrimStartTakes(s);
    b := TrimEndTakes(TrimStart(s));
    var t := Trim(s);
    assert TrimStart(s) == t + b;
    if t != "" {
      assert t[0] == TrimStart(s)[0];
      assert [t[0]][0] == t[0] && [t[|t|-1]][0] == t[|t|-1];
    }
  }

  /** Accepted are only identifiers of the standard's form: 32, 16 and 2 lower-case
      hexadecimal digits, the first two not all zero. */
  lemma {:induction false} AcceptedIsWellFormed(header: string)
    requires Parse(header).Some?
    ensures var t := Parse(header).value;
      && |t.traceId| == 32 && |t.spanId| == 16 && |t.flags| == 2
      && (forall c :: c in t.traceId + t.spanId + t.flags ==> c in "0123456789abcdef")
      && t.traceId != seq(32, _ => '0') && t.spanId != seq(16, _ => '0')
  {
    var t := Parse(header).value;
    forall c | c in t.traceId + t.spanId + t.flags
      ensures c in "0123456789abcdef"
    {
      assert c in t.traceId || c in t.spanId || c in t.flags;
      assert IsLowerHex(c);
      HexDigitListed(c);
    }
  }

  lemma {:induction false} HexDigitListed(c: char)
    ensures IsLowerHex(c) <==> c in "0123456789abcdef"
  {
    var ds := "0123456789abcdef";
    if IsLowerHex(c) {
      var i := if '0' <= c <= '9' then c as int - 48 else c as int - 87;
      assert ds[i] == c;
    }
  }

  /** A later version is read as its first four fields, whatever follows them;
      version ff is never read. */
  lemma {:induction false} LaterVersions(v: string, t: TraceContext, more: string)
    requires IsHex(v, 2) && v != "00" && ValidContext(t)
    requires '-' !in more && more != "" && !IsSpace(more[|more|-1])
    ensures Parse(v + "-" + t.traceId + "-" + t.spanId + "-" + t.flags + "-" + more) ==
      if v == "ff" then None else Some(t)
  {
    assert !IsLowerHex('-');
    var ps := [v, t.traceId, t.spanId, t.flags, more];
    var s := v + "-" + t.traceId + "-" + t.spanId + "-" + t.flags + "-" + more;
    FiveParts(v, t.traceId, t.spanId, t.flags, more);
    assert v[0] in v;
    assert s[0] == v[0] && s[|s|-1] == more[|more|-1];
    TrimIsIdentity(s);
    SplitJoin(ps, '-');
  }

  lemma {:induction false} FiveParts(a: string, b: string, c: string, d: string, e: string)
    ensures Join([a, b, c, d, e], '-') == a + "-" + b + "-" + c + "-" + d + "-" + e
  {
    var ps := [a, b, c, d, e];
    assert ps[1..] == [b, c, d, e] && ps[1..][1..] == [c, d, e] && ps[1..][1..][1..] == [d, e];
    assert ps[1..][1..][1..][1..] == [e];
    assert Join([d, e], '-') == d + "-" + e;
    assert Join([c, d, e], '-') == c + "-" + (d + "-" + e);
    assert Join([b, c, d, e], '-') == b + "-" + (c + "-" + (d + "-" + e));
    assert Join(ps, '-') == a + "-" + (b + "-" + (c + "-" + (d + "-" + e)));
  }

  /** Every valid context parses back from its printed form. */
  lemma {:induction false} ContextRoundTrip(t: TraceContext)
    requires ValidContext(t)
    ensures Parse(Print(t)) == Some(t)
  {
    assert !IsLowerHex('-');
    PrintParts(t);
    var s := Print(t);
    assert s[0] == '0' && s[|s|-1] == t.flags[1];
    assert t.flags[1] in t.flags;
    TrimIsIdentity(s);
  }

  /** Printing a parsed version-00 header gives the header back, trimmed. */
  lemma {:induction false} HeaderRoundTrip(header: string)
    requires Parse(header).Some? && Split(Trim(header), '-')[0] == "00"
    ensures Print(Parse(header).value) == Trim(header)
  {
    var v := Trim(header);
    var parts, t := Split(v, '-'), Parse(header).value;
    assert parts == ["00", t.traceId, t.spanId, t.flags];
    assert !IsLowerHex('-');
    PrintParts(t);
    JoinSplit(v, '-');
  }

  /** A version-00 header is accepted exactly when, up to surrounding space, it
      is the printed form of a valid context. */
  lemma {:induction false} AcceptedExactlyWhen(header: string, t: TraceContext)
    ensures Parse(header) == Some(t) && Split(Trim(header), '-')[0] == "00" <==>
            ValidContext(t) && Trim(header) == Print(t)
  {
    if Parse(header) == Some(t) && Split(Trim(header), '-')[0] == "00" {
      HeaderRoundTrip(header);
    }
    if ValidContext(t) && Trim(header) == Print(t) {
      assert !IsLowerHex('-');
      PrintParts(t);
    }
  }

  lemma {:induction false} HexNotZero(bytes: seq<Byte>, i: nat)
    requires i < |bytes| && bytes[i] != 0
    ensures NotZero(Hex(bytes))
  {
    var s := Hex(bytes);
    if i == 0 {
      var b := bytes[0] as int;
      DigitIsHex(b / 16);
      DigitIsHex(b % 16);
      assert s[0] != '0' || s[1] != '0';
    } else {
      HexNotZero(bytes[1..], i - 1);
      var j :| 0 <= j < |Hex(bytes[1..])| && Hex(bytes[1..])[j] != '0';
      assert s[j + 2] == Hex(bytes[1..])[j];
    }
  }

  /** The hop to the upstream: the same trace under a fresh span id drawn from
      random bytes that are not all zero. */
  function Child(t: TraceContext, random: seq<Byte>): TraceContext
  {
    t.(spanId := Hex(random))
  }

  /** What the proxy sends upstream is a valid header of the incoming trace,
      with its sampling flags, and reads back as exactly that hop. */
  lemma {:induction false} ChildStaysInTrace(t: TraceContext, random: seq<Byte>, i: nat)
    requires ValidContext(t) && |random| == 8 && i < 8 && random[i] != 0
    ensures var up := Parse(Print(Child(t, random)));
      up.Some? && up.value.traceId == t.traceId && up.value.flags == t.flags && up.value.spanId == Hex(random)
  {
    HexNotZero(random, i);
    ContextRoundTrip(Child(t, random));
  }
}

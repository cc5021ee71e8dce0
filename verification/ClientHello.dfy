/**
 Reading the server name from a TLS ClientHello (internal/sniff/sniff.go), and
 the encoding it undoes (section 4.1.2 of RFC 8446, section 3 of RFC 6066).
 */
module ClientHello {
  import opened Wrappers
  import opened Wire

  const SERVER_NAME := 0x0000
  const ENCRYPTED_CLIENT_HELLO := 0xfe0d

  /** What the parser reports: the host name ("" when none) and the ECH flag. */
  datatype Sniffed = Sniffed(host: bytes, ech: bool)

  // ---------------------------------------------- specification functions

  /** The first host_name entry of a server_name list body. */
  function FirstEntry(b: bytes): Option<bytes>
    decreases |b|
  {
    if |b| < 3 then None
    else
      var l := U16(b[1..]);
      if |b| < 3 + l then None
      else if b[0] == 0 then Some(b[3..3 + l])
      else FirstEntry(b[3 + l..])
  }

  function ServerName(b: bytes): Option<bytes>
  {
    if |b| < 2 then None else FirstEntry(b[2..])
  }

  function Note(s: Sniffed, typ: int, data: bytes): Sniffed
  {
    if typ == SERVER_NAME then
      match ServerName(data)
      case Some(h) => s.(host := h)
      case None => s
    else if typ == ENCRYPTED_CLIENT_HELLO then s.(ech := true)
    else s
  }

  /** Scans extensions until the next one is not complete. */
  function Scan(b: bytes, s: Sniffed): Sniffed
    decreases |b|
  {
    if |b| < 4 then s
    else
      var l := U16(b[2..]);
      if |b| < 4 + l then s
      else Scan(b[4 + l..], Note(s, U16(b), b[4..4 + l]))
  }

  /** Skips a vector with a one-byte length, leaving at least extra bytes. */
  function Skip8(b: bytes, extra: nat): (r: Option<bytes>)
    ensures r.Some? ==> |r.value| >= extra && |r.value| < |b|
  {
    if |b| < 1 then None
    else if |b| < 1 + b[0] + extra then None
    else Some(b[1 + b[0]..])
  }

  function Skip16(b: bytes, extra: nat): (r: Option<bytes>)
    ensures r.Some? ==> |r.value| >= extra && |r.value| < |b|
  {
    if |b| < 2 then None
    else if |b| < 2 + U16(b) + extra then None
    else Some(b[2 + U16(b)..])
  }

  /** The extensions block of a ClientHello, cut to its own length when all of it is there. */
  function Extensions(b: bytes): Option<bytes>
  {
    if |b| < 4 || b[0] != 1 || |b| < 4 + 2 + 32 + 1 then None
    else
      match Skip8(b[38..], 2)
      case None => None
      case Some(b1) =>
        match Skip16(b1, 1)
        case None => None
        case Some(b2) =>
          match Skip8(b2, 2)
          case None => None
          case Some(b3) => Some(Cut(b3[2..], U16(b3)))
  }

  function Cut(b: bytes, n: nat): bytes { if n < |b| then b[..n] else b }

  const NOTHING := Sniffed([], false)

  function Hello(b: bytes): Option<Sniffed>
  {
    match Extensions(b)
    case None => None
    case Some(exts) => Some(Scan(exts, NOTHING))
  }

  // ------------------------------------------------------------ the parser

  method ParseServerName(data: bytes) returns (r: Option<bytes>)
    ensures r == ServerName(data)
  {
    if |data| < 2 {
      return None;
    }
    var b := data[2..];
    while |b| >= 3
      invariant FirstEntry(b) == ServerName(data)
      decreases |b|
    {
      var typ := b[0];
      var l := U16(b[1..]);
      if |b| < 3 + l {
        return None;
      }
      if typ == 0 {
        return Some(b[3..3 + l]);
      }
      b := b[3 + l..];
    }
    return None;
  }

  /** The extensions block, by slicing the fields before it away. */
  method SkipHead(msg: bytes) returns (exts: Option<bytes>)
    ensures exts == Extensions(msg)
  {
    var b := msg;
    if |b| < 4 || b[0] != 1 {
      return None;
    }
    b := b[4..];
    if |b| < 2 + 32 + 1 {
      return None;
    }
    b := b[2 + 32..];
    assert b == msg[38..];
    var sidLen: int := b[0];
    if |b| < 1 + sidLen + 2 {
      return None;
    }
    b := b[1 + sidLen..];
    var csLen := U16(b);
    if |b| < 2 + csLen + 1 {
      return None;
    }
    b := b[2 + csLen..];
    var cmLen: int := b[0];
    if |b| < 1 + cmLen + 2 {
      return None;
    }
    b := b[1 + cmLen..];
    var extLen := U16(b);
    b := b[2..];
    if extLen < |b| {
      b := b[..extLen];
    }
    return Some(b);
  }

  method ParseClientHello(msg: bytes) returns (host: bytes, ech: bool, ok: bool)
    ensures ok == Hello(msg).Some?
    ensures ok ==> Sniffed(host, ech) == Hello(msg).value
    ensures !ok ==> host == [] && !ech
  {
    host, ech, ok := [], false, false;
    var exts := SkipHead(msg);
    if exts.None? {
      return;
    }
    var b := exts.value;
    while |b| >= 4
      invariant Scan(b, Sniffed(host, ech)) == Scan(exts.value, NOTHING)
      decreases |b|
    {
      var typ := U16(b);
      var l := U16(b[2..]);
      if |b| < 4 + l {
        break;
      }
      var data := b[4..4 + l];
      b := b[4 + l..];
      if typ == SERVER_NAME {
        var h := ParseServerName(data);
        if h.Some? {
          host := h.value;
        }
      } else if typ == ENCRYPTED_CLIENT_HELLO {
        ech := true;
      }
    }
    ok := true;
  }

  // ---------------------------------------------------------- the encoding

  /** One entry of a server_name list. */
  datatype Entry = Entry(kind: byte, name: bytes)

  /** An extension; server_name is given by its entries. */
  datatype Ext = SNI(entries: seq<Entry>) | Other(typ: int, data: bytes)

  datatype HelloMsg = HelloMsg(
    version: bytes, random: bytes, sessionID: bytes, ciphers: bytes, compression: bytes, exts: seq<Ext>)

  function EncodeEntries(es: seq<Entry>): bytes
    requires forall e :: e in es ==> |e.name| < 0x1_0000
  {
    if es == [] then []
    else [es[0].kind] + PutU16(|es[0].name|) + es[0].name + EncodeEntries(es[1..])
  }

  ghost predicate WellSized(e: Ext)
  {
    match e
    case SNI(es) => (forall x :: x in es ==> |x.name| < 0x1_0000) && |EncodeEntries(es)| + 2 < 0x1_0000
    case Other(typ, data) => 0 < typ < 0x1_0000 && |data| < 0x1_0000
  }

  ghost function Typ(e: Ext): int { if e.SNI? then 0 else e.typ }

  ghost function Data(e: Ext): bytes
    requires WellSized(e)
  {
    match e
    case SNI(es) => PutU16(|EncodeEntries(es)|) + EncodeEntries(es)
    case Other(_, data) => data
  }

  ghost function EncodeExt(e: Ext): bytes
    requires WellSized(e)
  {
    PutU16(Typ(e)) + PutU16(|Data(e)|) + Data(e)
  }

  ghost function EncodeExts(es: seq<Ext>): bytes
    requires forall e :: e in es ==> WellSized(e)
  {
    if es == [] then [] else EncodeExt(es[0]) + EncodeExts(es[1..])
  }

  ghost predicate ValidHello(h: HelloMsg)
  {
    && |h.version| == 2 && |h.random| == 32 && |h.sessionID| < 256 && |h.ciphers| < 0x1_0000 && |h.compression| < 256
    && (forall e :: e in h.exts ==> WellSized(e))
    && |EncodeExts(h.exts)| < 0x1_0000
  }

  /** Everything before the extensions' bytes; length is the handshake length field. */
  ghost function EncodeHead(h: HelloMsg, length: bytes): bytes
    requires ValidHello(h) && |length| == 3
  {
    [1] + length + h.version + h.random + ([|h.sessionID|] + h.sessionID) + (PutU16(|h.ciphers|) + h.ciphers)
    + ([|h.compression|] + h.compression) + PutU16(|EncodeExts(h.exts)|)
  }

  ghost function EncodeHello(h: HelloMsg, length: bytes): bytes
    requires ValidHello(h) && |length| == 3
  {
    EncodeHead(h, length) + EncodeExts(h.exts)
  }

  /** The first entry of kind host_name. */
  ghost function HostEntry(es: seq<Entry>): Option<bytes>
  {
    if es == [] then None else if es[0].kind == 0 then Some(es[0].name) else HostEntry(es[1..])
  }

  /** The first host_name of the last server_name extension that holds one. */
  ghost function LastHost(es: seq<Ext>): bytes
  {
    if es == [] then []
    else
      var last := es[|es| - 1];
      if last.SNI? && HostEntry(last.entries).Some? then HostEntry(last.entries).value else LastHost(es[..|es| - 1])
  }

  ghost predicate HasECH(es: seq<Ext>)
  {
    exists e :: e in es && e.Other? && e.typ == 0xfe0d
  }

  ghost function Answer(es: seq<Ext>): Sniffed { Sniffed(LastHost(es), HasECH(es)) }

  // -------------------------------------------------------------- theorems

  lemma {:induction false} EntriesRoundTrip(es: seq<Entry>)
    requires forall e :: e in es ==> |e.name| < 0x1_0000
    ensures FirstEntry(EncodeEntries(es)) == HostEntry(es)
  {
    if es != [] {
      var e, rest := es[0], EncodeEntries(es[1..]);
      EntryThen(e, rest, EncodeEntries(es));
      EntriesRoundTrip(es[1..]);
    }
  }

  /** The first entry of a list that starts with this one. */
  lemma EntryThen(e: Entry, rest: bytes, b: bytes)
    requires |e.name| < 0x1_0000 && b == [e.kind] + PutU16(|e.name|) + e.name + rest
    ensures FirstEntry(b) == if e.kind == 0 then Some(e.name) else FirstEntry(rest)
  {
    var tail := PutU16(|e.name|) + (e.name + rest);
    assert b == [e.kind] + tail;
    assert b[1..] == tail;
    U16Prefix(|e.name|, e.name + rest);
    assert b[3..] == e.name + rest;
    assert b[3..3 + |e.name|] == e.name;
    assert b[3 + |e.name|..] == rest;
  }

  /** Entries of other kinds are passed over, and an entry cut short ends the search. */
  lemma {:induction false} ShortEntry(es: seq<Entry>, rest: bytes)
    requires (forall e :: e in es ==> |e.name| < 0x1_0000) && HostEntry(es).None?
    requires |rest| < 3 || |rest| < 3 + U16(rest[1..])
    ensures FirstEntry(EncodeEntries(es) + rest) == None
  {
    if es == [] {
      assert EncodeEntries(es) + rest == rest;
    } else {
      var e, more := es[0], EncodeEntries(es[1..]) + rest;
      assert EncodeEntries(es) + rest == [e.kind] + PutU16(|e.name|) + e.name + more;
      EntryThen(e, more, EncodeEntries(es) + rest);
      ShortEntry(es[1..], rest);
    }
  }

  lemma ServerNameRoundTrip(es: seq<Entry>)
    requires WellSized(SNI(es))
    ensures ServerName(Data(SNI(es))) == HostEntry(es)
  {
    EntriesRoundTrip(es);
    U16Prefix(|EncodeEntries(es)|, EncodeEntries(es));
  }

  /** One extension at the front of a scan. */
  lemma ScanExt(e: Ext, rest: bytes, s: Sniffed)
    requires WellSized(e)
    ensures Scan(EncodeExt(e) + rest, s) == Scan(rest, Note(s, Typ(e), Data(e)))
  {
    var d := Data(e);
    var b := EncodeExt(e) + rest;
    assert b == PutU16(Typ(e)) + (PutU16(|d|) + (d + rest));
    U16Prefix(Typ(e), PutU16(|d|) + (d + rest));
    U16Prefix(|d|, d + rest);
    assert b[2..] == PutU16(|d|) + (d + rest);
    assert b[4..] == d + rest;
    assert b[4..4 + |d|] == d;
    assert b[4 + |d|..] == rest;
  }

  lemma NoteAnswer(es: seq<Ext>, e: Ext)
    requires WellSized(e)
    ensures Note(Answer(es), Typ(e), Data(e)) == Answer(es + [e])
  {
    assert (es + [e])[..|es|] == es;
    assert forall x :: x in es + [e] <==> x in es || x == e;
    if e.SNI? {
      ServerNameRoundTrip(e.entries);
    }
  }

  /** No complete extension starts here. */
  predicate Incomplete(rest: bytes)
  {
    |rest| < 4 || |rest| < 4 + U16(rest[2..])
  }

  lemma EncodeSplit(es: seq<Ext>, rest: bytes)
    requires es != [] && forall e :: e in es ==> WellSized(e)
    ensures EncodeExts(es) + rest == EncodeExt(es[0]) + (EncodeExts(es[1..]) + rest)
  {
  }

  /** What the parser notes along a list of extensions. */
  ghost function NoteAll(es: seq<Ext>, s: Sniffed): Sniffed
    requires forall e :: e in es ==> WellSized(e)
  {
    if es == [] then s else NoteAll(es[1..], Note(s, Typ(es[0]), Data(es[0])))
  }

  lemma OneOver<T>(done: seq<T>, todo: seq<T>)
    requires todo != []
    ensures done + [todo[0]] + todo[1..] == done + todo
  {
  }

  lemma {:induction false} NoteAllAnswer(done: seq<Ext>, todo: seq<Ext>)
    requires forall e :: e in todo ==> WellSized(e)
    ensures NoteAll(todo, Answer(done)) == Answer(done + todo)
    decreases |todo|
  {
    if todo == [] {
      assert done + todo == done;
    } else {
      NoteAnswer(done, todo[0]);
      NoteAllAnswer(done + [todo[0]], todo[1..]);
      OneOver(done, todo);
    }
  }

  lemma ScanEnd(rest: bytes, s: Sniffed)
    requires Incomplete(rest)
    ensures Scan(rest, s) == s
  {
  }

  /** Scanning encoded extensions notes each of them, and nothing of an incomplete rest. */
  lemma {:induction false} ScanNotes(todo: seq<Ext>, rest: bytes, s: Sniffed)
    requires forall e :: e in todo ==> WellSized(e)
    requires Incomplete(rest)
    ensures Scan(EncodeExts(todo) + rest, s) == NoteAll(todo, s)
    decreases |todo|
  {
    if todo == [] {
      assert EncodeExts(todo) + rest == rest;
      ScanEnd(rest, s);
    } else {
      EncodeSplit(todo, rest);
      ScanExt(todo[0], EncodeExts(todo[1..]) + rest, s);
      ScanNotes(todo[1..], rest, Note(s, Typ(todo[0]), Data(todo[0])));
    }
  }

  lemma ScanAll(es: seq<Ext>, rest: bytes)
    requires forall e :: e in es ==> WellSized(e)
    requires Incomplete(rest)
    ensures Scan(EncodeExts(es) + rest, NOTHING) == Answer(es)
  {
    ScanNotes(es, rest, NOTHING);
    assert Answer([]) == NOTHING;
    NoteAllAnswer([], es);
    assert [] + es == es;
  }

  /** How many whole extensions fit in the first k bytes. */
  ghost function Complete(es: seq<Ext>, k: nat): (m: nat)
    requires forall e :: e in es ==> WellSized(e)
    ensures m <= |es|
  {
    if es == [] || k < |EncodeExt(es[0])| then 0 else 1 + Complete(es[1..], k - |EncodeExt(es[0])|)
  }

  /** An extension cut short. */
  lemma CutExt(e: Ext, k: nat)
    requires WellSized(e) && k < |EncodeExt(e)|
    ensures Incomplete(EncodeExt(e)[..k])
  {
    var x, d := EncodeExt(e), Data(e);
    if k >= 4 {
      assert x[2..] == PutU16(|d|) + d;
      U16Prefix(|d|, d);
      assert x[..k][2..][0] == x[2..][0] && x[..k][2..][1] == x[2..][1];
    }
  }

  lemma ExtsTake(es: seq<Ext>, m: nat)
    requires (forall e :: e in es ==> WellSized(e)) && m < |es|
    ensures EncodeExts(es[..m + 1]) == EncodeExt(es[0]) + EncodeExts(es[1..][..m])
  {
    assert es[..m + 1][1..] == es[1..][..m];
  }

  lemma AssocBytes(a: bytes, b: bytes, c: bytes)
    ensures a + (b + c) == a + b + c
  {
  }

  lemma {:induction false} CompleteSplit(es: seq<Ext>, k: nat) returns (rest: bytes)
    requires forall e :: e in es ==> WellSized(e)
    requires k <= |EncodeExts(es)|
    ensures EncodeExts(es)[..k] == EncodeExts(es[..Complete(es, k)]) + rest
    ensures Incomplete(rest)
  {
    if es == [] {
      rest := [];
    } else {
      var x, xs := EncodeExt(es[0]), EncodeExts(es[1..]);
      TakeConcat(x, xs, k);
      if k < |x| {
        rest := x[..k];
        assert es[..0] == [];
        CutExt(es[0], k);
      } else {
        rest := CompleteSplit(es[1..], k - |x|);
        var m := Complete(es[1..], k - |x|);
        ExtsTake(es, m);
        AssocBytes(x, EncodeExts(es[1..][..m]), rest);
      }
    }
  }

  lemma Skip8Field(v: bytes, rest: bytes, extra: nat)
    requires |v| < 256
    ensures Skip8([|v|] + v + rest, extra) == if |rest| >= extra then Some(rest) else None
  {
    var b: bytes := [|v|] + v + rest;
    assert b[1 + |v|..] == rest;
  }

  lemma Skip16Field(v: bytes, rest: bytes, extra: nat)
    requires |v| < 0x1_0000
    ensures Skip16(PutU16(|v|) + v + rest, extra) == if |rest| >= extra then Some(rest) else None
  {
    var b := PutU16(|v|) + v + rest;
    assert b == PutU16(|v|) + (v + rest);
    U16Prefix(|v|, v + rest);
    assert b[2 + |v|..] == rest;
  }

  /** A field cut short is refused. */
  lemma Skip8Short(v: bytes, k: nat, extra: nat)
    requires |v| < 256 && k < 1 + |v|
    ensures Skip8(([|v|] + v)[..k], extra) == None
  {
    var b: bytes := [|v|] + v;
    if k > 0 {
      assert b[..k][0] == |v|;
    }
  }

  lemma Skip16Short(v: bytes, k: nat, extra: nat)
    requires |v| < 0x1_0000 && k < 2 + |v|
    ensures Skip16((PutU16(|v|) + v)[..k], extra) == None
  {
    var b := PutU16(|v|) + v;
    U16Prefix(|v|, v);
    if k >= 2 {
      assert b[..k][0] == b[0] && b[..k][1] == b[1];
    }
  }

  /** The fields after the fixed part, then the extensions' length and first k bytes. */
  lemma BodyPrefix(h: HelloMsg, k: nat)
    requires ValidHello(h) && k <= |EncodeExts(h.exts)|
    ensures var sid, cs, cm, n := [|h.sessionID|] + h.sessionID, PutU16(|h.ciphers|) + h.ciphers, [|h.compression|] + h.compression, PutU16(|EncodeExts(h.exts)|);
            var tail := n + EncodeExts(h.exts)[..k];
            && Skip8(sid + (cs + (cm + tail)), 2) == Some(cs + (cm + tail))
            && Skip16(cs + (cm + tail), 1) == Some(cm + tail)
            && Skip8(cm + tail, 2) == Some(tail)
            && U16(tail) == |EncodeExts(h.exts)| && tail[2..] == EncodeExts(h.exts)[..k]
  {
    var cs, cm, n := PutU16(|h.ciphers|) + h.ciphers, [|h.compression|] + h.compression, PutU16(|EncodeExts(h.exts)|);
    var tail := n + EncodeExts(h.exts)[..k];
    Skip8Field(h.sessionID, cs + (cm + tail), 2);
    Skip16Field(h.ciphers, cm + tail, 1);
    Skip8Field(h.compression, tail, 2);
    U16Prefix(|EncodeExts(h.exts)|, EncodeExts(h.exts)[..k]);
  }

  lemma FiveFields(a: bytes, b: bytes, c: bytes, d: bytes, e: bytes, rest: bytes)
    ensures a + b + c + d + e + rest == a + (b + (c + (d + (e + rest))))
  {
  }

  lemma FixedPart(fixed: bytes, body: bytes)
    requires |fixed| == 38
    ensures (fixed + body)[0] == fixed[0] && (fixed + body)[38..] == body
  {
  }

  /** The head with k bytes of extensions: the parser reaches exactly those bytes. */
  lemma ExtensionsOfPrefix(h: HelloMsg, length: bytes, k: nat)
    requires ValidHello(h) && |length| == 3 && k <= |EncodeExts(h.exts)|
    ensures Extensions(EncodeHead(h, length) + EncodeExts(h.exts)[..k]) == Some(EncodeExts(h.exts)[..k])
  {
    var sid: bytes, cs, cm: bytes, n := [|h.sessionID|] + h.sessionID, PutU16(|h.ciphers|) + h.ciphers, [|h.compression|] + h.compression, PutU16(|EncodeExts(h.exts)|);
    var tail := n + EncodeExts(h.exts)[..k];
    var fixed: bytes := [1] + length + h.version + h.random;
    FiveFields(fixed, sid, cs, cm, n, EncodeExts(h.exts)[..k]);
    FixedPart(fixed, sid + (cs + (cm + tail)));
    BodyPrefix(h, k);
  }

  /**
   Parsing undoes encoding: for every ClientHello with an extensions block the
   parser reports the first host name of the last server_name extension that
   holds one, and ECH exactly when the extension occurs.
   */
  lemma HelloRoundTrip(h: HelloMsg, length: bytes)
    requires ValidHello(h) && |length| == 3
    ensures Hello(EncodeHello(h, length)) == Some(Answer(h.exts))
  {
    var x := EncodeExts(h.exts);
    assert x[..|x|] == x;
    ExtensionsOfPrefix(h, length, |x|);
    ScanAll(h.exts, []);
    assert x + [] == x;
  }

  /** Bytes of extensions cut off anywhere answer what their whole extensions do. */
  lemma ScanPrefix(es: seq<Ext>, j: nat)
    requires (forall e :: e in es ==> WellSized(e)) && j <= |EncodeExts(es)|
    ensures Scan(EncodeExts(es)[..j], NOTHING) == Answer(es[..Complete(es, j)])
  {
    var rest := CompleteSplit(es, j);
    ScanAll(es[..Complete(es, j)], rest);
  }

  /** Once the head is there, truncation only hides the extensions it cuts. */
  lemma TruncatedHello(h: HelloMsg, length: bytes, k: nat)
    requires ValidHello(h) && |length| == 3
    requires |EncodeHead(h, length)| <= k <= |EncodeHello(h, length)|
    ensures Hello(EncodeHello(h, length)[..k])
         == Some(Answer(h.exts[..Complete(h.exts, k - |EncodeHead(h, length)|)]))
  {
    var head, x := EncodeHead(h, length), EncodeExts(h.exts);
    var j := k - |head|;
    TakeConcat(head, x, k);
    ExtensionsOfPrefix(h, length, j);
    ScanPrefix(h.exts, j);
  }

  /** The parser's path through the fields, when one of them is cut short. */
  lemma ShortBody(sid: bytes, cs: bytes, cm: bytes, n: bytes, k: nat)
    requires |sid| < 256 && |cs| < 0x1_0000 && |cm| < 256 && |n| == 2
    requires k < 1 + |sid| + 2 + |cs| + 1 + |cm| + 2
    ensures var b := (([|sid|] + sid) + ((PutU16(|cs|) + cs) + (([|cm|] + cm) + n)))[..k];
            match Skip8(b, 2)
            case None => true
            case Some(b1) => match Skip16(b1, 1)
                             case None => true
                             case Some(b2) => Skip8(b2, 2) == None
  {
    var f1: bytes, f2, f3: bytes := [|sid|] + sid, PutU16(|cs|) + cs, [|cm|] + cm;
    TakeConcat(f1, f2 + (f3 + n), k);
    if k < |f1| {
      Skip8Short(sid, k, 2);
    } else {
      var k1 := k - |f1|;
      var r1 := (f2 + (f3 + n))[..k1];
      Skip8Field(sid, r1, 2);
      assert f1 + r1 == [|sid|] + sid + r1;
      TakeConcat(f2, f3 + n, k1);
      if k1 < |f2| {
        Skip16Short(cs, k1, 1);
      } else {
        var k2 := k1 - |f2|;
        var r2 := (f3 + n)[..k2];
        Skip16Field(cs, r2, 1);
        assert f2 + r2 == PutU16(|cs|) + cs + r2;
        TakeConcat(f3, n, k2);
        if k2 < |f3| {
          Skip8Short(cm, k2, 2);
        } else {
          Skip8Field(cm, n[..k2 - |f3|], 2);
          assert f3 + n[..k2 - |f3|] == [|cm|] + cm + n[..k2 - |f3|];
        }
      }
    }
  }

  /** Before that point nothing is reported. */
  lemma ShortHello(h: HelloMsg, length: bytes, k: nat)
    requires ValidHello(h) && |length| == 3 && k < |EncodeHead(h, length)|
    ensures Hello(EncodeHello(h, length)[..k]) == None
  {
    var head := EncodeHead(h, length);
    var b := EncodeHello(h, length)[..k];
    TakeConcat(head, EncodeExts(h.exts), k);
    assert b == head[..k];
    var fixed: bytes := [1] + length + h.version + h.random;
    var n := PutU16(|EncodeExts(h.exts)|);
    var body := ([|h.sessionID|] + h.sessionID) + ((PutU16(|h.ciphers|) + h.ciphers) + (([|h.compression|] + h.compression) + n));
    assert head == fixed + body;
    TakeConcat(fixed, body, k);
    if k >= 39 {
      assert b[38..] == body[..k - 38];
      ShortBody(h.sessionID, h.ciphers, h.compression, n, k - 38);
    }
  }
}

// Connection strings of the configuration: PROTO://host:port/id@type or
// PROTO://host:port/TextBuffer, several of them separated by semicolons.

/** The QString helpers the parser uses. */
module Strings {

  function LastIndexOf(s: string, c: char): (i: int)
    ensures -1 <= i < |s|
  {
    if s == [] then -1 else if s[|s| - 1] == c then |s| - 1 else LastIndexOf(s[..|s| - 1], c)
  }

  function FirstIndexOf(s: string, c: char): (i: int)
    ensures -1 <= i < |s|
    ensures i == -1 <==> c !in s
    ensures i >= 0 ==> s[i] == c && c !in s[..i]
  {
    if s == [] then -1
    else if s[0] == c then 0
    else
      var j := FirstIndexOf(s[1..], c);
      assert j >= 0 ==> s[..j + 1] == [s[0]] + s[1..][..j];
      if j < 0 then -1 else j + 1
  }

  /** mid: a negative count, or one that is too large, takes all the rest. */
  function Mid(s: string, pos: nat, n: int): string {
    if pos > |s| then [] else if n < 0 || pos + n > |s| then s[pos..] else s[pos..pos + n]
  }

  /** Both replace calls: blanks and line ends are dropped. */
  function Without(s: string): (r: string)
    ensures forall c :: c in r ==> c in s && c != ' ' && c != '\n'
  {
    if s == [] then []
    else if s[0] == ' ' || s[0] == '\n' then Without(s[1..])
    else [s[0]] + Without(s[1..])
  }

  function NonEmpty(s: string): seq<string> { if s == [] then [] else [s] }

  /** split(";", SkipEmptyParts) */
  function Split(s: string): seq<string> {
    var i := FirstIndexOf(s, ';');
    if i < 0 then NonEmpty(s) else NonEmpty(s[..i]) + Split(s[i + 1..])
  }

  function Digit(d: nat): char
    requires d < 10
  {
    '0' + d as char
  }

  predicate IsDigit(c: char) { '0' <= c <= '9' }

  predicate AllDigits(s: string) { s != [] && forall i :: 0 <= i < |s| ==> IsDigit(s[i]) }

  function Number(s: string): nat
    requires forall i :: 0 <= i < |s| ==> IsDigit(s[i])
  {
    if s == [] then 0
    else
      assert IsDigit(s[|s| - 1]);
      var digit: int := s[|s| - 1] as int - '0' as int;
      10 * Number(s[..|s| - 1]) + digit
  }

  /** Decimal notation. */
  function Decimal(n: nat): (s: string)
    ensures AllDigits(s)
  {
    if n < 10 then [Digit(n)] else Decimal(n / 10) + [Digit(n % 10)]
  }

  predicate IsSpace(c: char) { c == ' ' || '\t' <= c <= '\r' }

  /** The number conversions skip white space on both sides. */
  function Trimmed(s: string): (r: string)
    ensures r != [] ==> !IsSpace(r[0]) && !IsSpace(r[|r| - 1])
  {
    if s == [] then []
    else if IsSpace(s[0]) then Trimmed(s[1..])
    else if IsSpace(s[|s| - 1]) then Trimmed(s[..|s| - 1])
    else s
  }

  /** The digits of a number without sign, with an optional plus. */
  function Unsigned(s: string): string { if s != [] && s[0] == '+' then s[1..] else s }

  /** toUShort: zero unless the text is a number in range. */
  function ToUShort(s: string): nat {
    var t := Unsigned(Trimmed(s));
    if AllDigits(t) && Number(t) < 0x1_0000 then Number(t) else 0
  }

  /** toInt */
  function ToInt(s: string): int {
    var t := Trimmed(s);
    if t != [] && t[0] == '-' then
      if AllDigits(t[1..]) && Number(t[1..]) <= 0x8000_0000 then 0 - Number(t[1..]) as int else 0
    else
      var u := Unsigned(t);
      if AllDigits(u) && Number(u) < 0x8000_0000 then Number(u) else 0
  }

  // ---- facts ----

  lemma {:induction false} NumberOfDecimal(n: nat)
    ensures Number(Decimal(n)) == n
  {
    if n >= 10 {
      NumberOfDecimal(n / 10);
      assert Decimal(n)[..|Decimal(n)| - 1] == Decimal(n / 10);
    } else {
      assert Decimal(n)[..0] == [];
    }
  }

  predicate AllSpace(s: string) { forall i :: 0 <= i < |s| ==> IsSpace(s[i]) }

  lemma {:induction false} TrimmedPadded(a: string, s: string, b: string)
    requires AllSpace(a) && AllSpace(b) && s != [] && !IsSpace(s[0]) && !IsSpace(s[|s| - 1])
    ensures Trimmed(a + s + b) == s
    decreases |a| + |b|
  {
    var t := a + s + b;
    if a != [] {
      assert t[0] == a[0] && t[1..] == a[1..] + s + b;
      TrimmedPadded(a[1..], s, b);
    } else if b != [] {
      assert t[0] == s[0] && t[|t| - 1] == b[|b| - 1];
      assert t[..|t| - 1] == a + s + b[..|b| - 1];
      TrimmedPadded(a, s, b[..|b| - 1]);
    } else {
      assert t == s;
    }
  }

  lemma {:induction false} TrimmedKeeps(s: string, c: char)
    requires c in s && !IsSpace(c)
    ensures c in Trimmed(s)
  {
    if IsSpace(s[0]) {
      assert s == [s[0]] + s[1..];
      TrimmedKeeps(s[1..], c);
    } else if IsSpace(s[|s| - 1]) {
      assert s == s[..|s| - 1] + [s[|s| - 1]];
      TrimmedKeeps(s[..|s| - 1], c);
    }
  }

  /** A text with any other character in it is no number. */
  lemma ForeignCharacter(s: string, i: nat)
    requires i < |s| && !IsSpace(s[i]) && !IsDigit(s[i]) && s[i] != '+'
    ensures !AllDigits(Unsigned(Trimmed(s))) && ToUShort(s) == 0
  {
    TrimmedKeeps(s, s[i]);
    var t := Trimmed(s);
    var k :| 0 <= k < |t| && t[k] == s[i];
    if t[0] == '+' {
      assert t[1..][k - 1] == s[i];
    }
  }

  /** A number as it may be spelled: with white space around it and a plus in front. */
  function Spelling(a: string, plus: bool, n: nat, b: string): string {
    a + ((if plus then "+" else "") + Decimal(n)) + b
  }

  lemma SpellingRead(a: string, plus: bool, n: nat, b: string)
    requires AllSpace(a) && AllSpace(b)
    ensures Unsigned(Trimmed(Spelling(a, plus, n, b))) == Decimal(n) && Number(Decimal(n)) == n
  {
    var d := Decimal(n);
    assert IsDigit(d[0]) && IsDigit(d[|d| - 1]);
    var s := (if plus then "+" else "") + d;
    assert s[|s| - 1] == d[|d| - 1];
    assert plus ==> s[0] == '+' && s[1..] == d;
    assert !plus ==> s == d;
    TrimmedPadded(a, s, b);
    NumberOfDecimal(n);
  }

  /** A number is read as itself as long as it fits, and as zero otherwise. */
  lemma ReadSpelling(a: string, plus: bool, n: nat, b: string)
    requires AllSpace(a) && AllSpace(b)
    ensures ToUShort(Spelling(a, plus, n, b)) == if n < 0x1_0000 then n else 0
    ensures ToInt(Spelling(a, plus, n, b)) == if n < 0x8000_0000 then n else 0
  {
    SpellingRead(a, plus, n, b);
    NoMinus(a, plus, n, b);
  }

  lemma NoMinus(a: string, plus: bool, n: nat, b: string)
    requires AllSpace(a) && AllSpace(b)
    ensures var t := Trimmed(Spelling(a, plus, n, b)); t != [] && t[0] != '-'
  {
    var d := Decimal(n);
    var s := (if plus then "+" else "") + d;
    assert IsDigit(d[0]) && IsDigit(d[|d| - 1]) && s[|s| - 1] == d[|d| - 1];
    assert plus ==> s[0] == '+';
    assert !plus ==> s == d;
    TrimmedPadded(a, s, b);
  }

  lemma ReadNegative(n: nat)
    ensures ToInt("-" + Decimal(n)) == if n <= 0x8000_0000 then 0 - n as int else 0
    ensures ToUShort("-" + Decimal(n)) == 0
  {
    var d := Decimal(n);
    var s := "-" + d;
    assert IsDigit(d[|d| - 1]) && s[|s| - 1] == d[|d| - 1] && s[1..] == d;
    NumberOfDecimal(n);
    assert Trimmed(s) == s;
    assert !IsDigit(s[0]);
  }

  lemma ReadDecimal(n: nat)
    ensures n < 0x1_0000 ==> ToUShort(Decimal(n)) == n
    ensures n < 0x8000_0000 ==> ToInt(Decimal(n)) == n
  {
    ReadSpelling("", false, n, "");
    assert Spelling("", false, n, "") == Decimal(n);
  }

  lemma {:induction false} LastIndexAbsent(s: string, c: char)
    requires c !in s
    ensures LastIndexOf(s, c) == -1
  {
    if s != [] { LastIndexAbsent(s[..|s| - 1], c); }
  }

  lemma {:induction false} LastIndexAt(a: string, c: char, b: string)
    requires c !in b
    ensures LastIndexOf(a + [c] + b, c) == |a|
    decreases |b|
  {
    var s := a + [c] + b;
    if b == [] {
      assert s[|s| - 1] == c;
    } else {
      assert s[..|s| - 1] == a + [c] + b[..|b| - 1];
      assert s[|s| - 1] == b[|b| - 1];
      LastIndexAt(a, c, b[..|b| - 1]);
    }
  }

  lemma {:induction false} FirstIndexAt(a: string, c: char, b: string)
    requires c !in a
    ensures FirstIndexOf(a + [c] + b, c) == |a|
  {
    var s := a + [c] + b;
    if a != [] {
      assert s[0] == a[0] && s[1..] == a[1..] + [c] + b;
      FirstIndexAt(a[1..], c, b);
    }
  }

  lemma {:induction false} WithoutKeeps(s: string)
    requires ' ' !in s && '\n' !in s
    ensures Without(s) == s
  {
    if s != [] { WithoutKeeps(s[1..]); }
  }
}

module Connections {
  import opened Strings

  datatype Protocol = TCP | UDP | TCP_SSL

  /** What is asked for: nothing when the entry has no '/' part (the source leaves
      those fields unset), the text buffer, or an image by buffer and type. */
  datatype Target = Unset | TextBuffer | Picture(id: nat, imageType: int)

  datatype Connection = Connection(protocol: Protocol, host: string, port: nat, target: Target)

  datatype Option<T> = None | Some(value: T)

  function ProtocolOf(name: string): Option<Protocol> {
    if name == "TCP" then Some(TCP)
    else if name == "UDP" then Some(UDP)
    else if name == "TCP_SSL" then Some(TCP_SSL)
    else None
  }

  /** An entry cut at its last colon, and its head at the protocol and the host. */
  datatype Pieces = NoColon | Pieces(protocol: string, host: string, tail: string)

  function CutEntry(text: string): Pieces { CutClean(Without(text)) }

  function CutClean(str: string): Pieces {
    var colon := LastIndexOf(str, ':');
    if colon < 0 then NoColon else CutHead(Mid(str, 0, colon), Mid(str, colon + 1, -1))
  }

  function CutHead(head: string, tail: string): Pieces {
    Pieces(Mid(head, 0, LastIndexOf(head, ':')), Mid(head, LastIndexOf(head, '/') + 1, -1), tail)
  }

  function PortOf(tail: string): nat {
    var slash := LastIndexOf(tail, '/');
    if slash > 0 then ToUShort(Mid(tail, 0, slash)) else ToUShort(tail)
  }

  function SlashTarget(tail: string): Target {
    var slash := LastIndexOf(tail, '/');
    if slash > 0 then TargetOf(tail, slash) else Unset
  }

  function Listed(p: Pieces): Option<Connection> {
    if p.NoColon? then None
    else match ProtocolOf(p.protocol)
         case None => None
         case Some(protocol) => Some(Connection(protocol, p.host, PortOf(p.tail), SlashTarget(p.tail)))
  }

  /** One entry of parseInputURLList. */
  function ParseEntry(text: string): Option<Connection> { Listed(CutEntry(text)) }

  function TargetOf(tail: string, slash: nat): Target {
    if Mid(tail, slash + 1, -1) == "TextBuffer" then TextBuffer else PictureOf(tail, slash)
  }

  function PictureOf(tail: string, slash: nat): Target {
    var at := LastIndexOf(tail, '@');
    Picture(ToUShort(Mid(tail, slash + 1, at - slash - 1)), ToInt(Mid(tail, at + 1, -1)))
  }

  function ParseParts(parts: seq<string>): seq<Connection> {
    if parts == [] then []
    else
      var rest := ParseParts(parts[..|parts| - 1]);
      match ParseEntry(parts[|parts| - 1])
      case None => rest
      case Some(c) => rest + [c]
  }

  /** parseInputURLList on the Connection attribute; an empty one is an error. */
  function ParseList(connections: string): Option<seq<Connection>> {
    if connections == [] then None else Some(ParseParts(Split(connections)))
  }

  function SlashPicture(tail: string): Target {
    var slash := LastIndexOf(tail, '/');
    if slash > 0 then PictureOf(tail, slash) else Unset
  }

  function Single(p: Pieces): Option<Connection> {
    if p.NoColon? then None
    else match ProtocolOf(p.protocol)
         case Some(TCP) => Some(Connection(TCP, p.host, PortOf(p.tail), SlashPicture(p.tail)))
         case Some(UDP) => Some(Connection(UDP, p.host, PortOf(p.tail), SlashPicture(p.tail)))
         case _ => None
  }

  /** parseInputConfigEntry: only TCP and UDP, and no text buffers; None where the
      configuration keeps its old connection. */
  function ParseSingle(text: string): Option<Connection> { Single(CutEntry(text)) }

  // ---- writing entries ----

  function Name(p: Protocol): string {
    match p
    case TCP => "TCP"
    case UDP => "UDP"
    case TCP_SSL => "TCP_SSL"
  }

  function Signed(i: int): string { if i < 0 then "-" + Decimal(-i) else Decimal(i) }

  function RenderTarget(t: Target): string {
    match t
    case TextBuffer => "TextBuffer"
    case Picture(id, imageType) => Decimal(id) + "@" + Signed(imageType)
    case Unset => ""
  }

  function Head(p: Protocol, host: string): string { Name(p) + "://" + host }

  function Tail(c: Connection): string {
    if c.target.Unset? then Decimal(c.port) else Decimal(c.port) + "/" + RenderTarget(c.target)
  }

  function Render(c: Connection): string { Head(c.protocol, c.host) + [':'] + Tail(c) }

  predicate HostOk(host: string) {
    ':' !in host && '/' !in host && ';' !in host && ' ' !in host && '\n' !in host
  }

  /** Any image type is taken; outside the six the source only warns. */
  predicate TargetOk(t: Target) { t.Picture? && t.id < 0x1_0000 && -0x8000_0000 <= t.imageType < 0x8000_0000 }

  predicate WellFormed(c: Connection) {
    && HostOk(c.host) && c.port < 0x1_0000
    && (c.target.Picture? ==> TargetOk(c.target))
  }

  // ---- one entry ----

  lemma TargetChars(t: Target)
    ensures forall c :: c in RenderTarget(t) ==> c != ':' && c != '/' && c != ';' && c != ' ' && c != '\n'
  {
  }

  lemma TailChars(c: Connection)
    ensures forall x :: x in Tail(c) ==> x != ':' && x != ';' && x != ' ' && x != '\n'
  {
    TargetChars(c.target);
    var d := Decimal(c.port);
    forall x | x in Tail(c) ensures x in d || x == '/' || x in RenderTarget(c.target) {
    }
    assert forall x :: x in d ==> IsDigit(x);
  }

  lemma RenderChars(c: Connection)
    requires WellFormed(c)
    ensures ' ' !in Render(c) && '\n' !in Render(c) && ';' !in Render(c)
    ensures Without(Render(c)) == Render(c)
  {
    TailChars(c);
    HeadChars(c.protocol, c.host);
    Lacks(Head(c.protocol, c.host), ':', Tail(c), ' ');
    Lacks(Head(c.protocol, c.host), ':', Tail(c), '\n');
    Lacks(Head(c.protocol, c.host), ':', Tail(c), ';');
    WithoutKeeps(Render(c));
  }

  lemma Lacks(a: string, c: char, b: string, x: char)
    requires x !in a && x != c && x !in b
    ensures x !in a + [c] + b
  {
  }

  lemma HeadChars(p: Protocol, host: string)
    requires HostOk(host)
    ensures ' ' !in Head(p, host) && '\n' !in Head(p, host) && ';' !in Head(p, host)
  {
    var name := Name(p);
    assert ' ' !in name && '\n' !in name && ';' !in name;
  }

  /** A rendered entry is cut where it was put together. */
  lemma RenderCut(c: Connection)
    requires WellFormed(c)
    ensures CutEntry(Render(c)) == Pieces(Name(c.protocol), c.host, Tail(c))
  {
    CutCleaned(c);
    TailHasNoColon(c);
    CutAt(Head(c.protocol, c.host), Tail(c));
    HeadCut(c.protocol, c.host, Tail(c));
  }

  lemma CutCleaned(c: Connection)
    requires WellFormed(c)
    ensures CutEntry(Render(c)) == CutClean(Render(c))
  {
    RenderChars(c);
  }

  lemma TailHasNoColon(c: Connection)
    ensures ':' !in Tail(c)
  {
    TailChars(c);
  }

  lemma HeadCut(p: Protocol, host: string, tail: string)
    requires HostOk(host)
    ensures CutHead(Head(p, host), tail) == Pieces(Name(p), host, tail)
  {
    HeadParts(p, host);
  }

  lemma CutAt(head: string, tail: string)
    requires ':' !in tail
    ensures CutClean(head + [':'] + tail) == CutHead(head, tail)
  {
    LastIndexAt(head, ':', tail);
    MidAround(head, ':', tail);
  }

  lemma MidAround(a: string, c: char, b: string)
    ensures Mid(a + [c] + b, 0, |a|) == a && Mid(a + [c] + b, |a| + 1, -1) == b
  {
  }

  lemma HeadParts(p: Protocol, host: string)
    requires HostOk(host)
    ensures Mid(Head(p, host), 0, LastIndexOf(Head(p, host), ':')) == Name(p)
    ensures Mid(Head(p, host), LastIndexOf(Head(p, host), '/') + 1, -1) == host
  {
    HeadAtColon(Name(p), host);
    HeadAtSlash(Name(p), host);
  }

  lemma HeadAtColon(name: string, host: string)
    requires ':' !in host
    ensures Mid(name + "://" + host, 0, LastIndexOf(name + "://" + host, ':')) == name
  {
    assert name + "://" + host == name + [':'] + ("//" + host);
    LastIndexAt(name, ':', "//" + host);
    MidAround(name, ':', "//" + host);
  }

  lemma HeadAtSlash(name: string, host: string)
    requires '/' !in host
    ensures Mid(name + "://" + host, LastIndexOf(name + "://" + host, '/') + 1, -1) == host
  {
    assert name + "://" + host == (name + ":/") + ['/'] + host;
    LastIndexAt(name + ":/", '/', host);
    MidAround(name + ":/", '/', host);
  }

  lemma TailParts(port: nat, t: Target)
    requires t.TextBuffer? || TargetOk(t)
    requires port < 0x1_0000
    ensures var tail := Decimal(port) + "/" + RenderTarget(t);
            && LastIndexOf(tail, '/') == |Decimal(port)| > 0
            && PortOf(tail) == port
            && SlashTarget(tail) == t
            && SlashPicture(tail) == if t.Picture? then t else Picture(0, 0)
  {
    var d := Decimal(port);
    var tail := d + "/" + RenderTarget(t);
    TargetChars(t);
    assert tail == d + ['/'] + RenderTarget(t);
    LastIndexAt(d, '/', RenderTarget(t));
    ReadDecimal(port);
    MidAround(d, '/', RenderTarget(t));
    if t.Picture? {
      PictureParts(port, t);
      PictureIsNoTextBuffer(t);
    } else {
      TextBufferAsPicture(port);
    }
  }

  lemma PictureParts(port: nat, t: Target)
    requires TargetOk(t)
    ensures PictureOf(Decimal(port) + "/" + RenderTarget(t), |Decimal(port)|) == t
  {
    var id, ty := Decimal(t.id), Signed(t.imageType);
    NoAtInSigned(t.imageType);
    AtParts(Decimal(port), id, ty);
    assert RenderTarget(t) == id + "@" + ty;
    ReadDecimal(t.id);
    if t.imageType < 0 {
      ReadNegative(-t.imageType);
    } else {
      ReadDecimal(t.imageType);
    }
  }

  lemma NoAtInSigned(i: int)
    ensures '@' !in Signed(i)
  {
    var d := Decimal(if i < 0 then -i else i);
    assert forall x :: x in d ==> IsDigit(x);
    assert forall x :: x in Signed(i) ==> x == '-' || x in d;
  }

  lemma PictureIsNoTextBuffer(t: Target)
    requires t.Picture?
    ensures RenderTarget(t) != "TextBuffer"
  {
    var id := Decimal(t.id);
    assert RenderTarget(t)[0] == id[0] && IsDigit(id[0]);
  }

  lemma AtParts(d: string, id: string, ty: string)
    requires '@' !in ty
    ensures PictureOf(d + "/" + (id + "@" + ty), |d|) == Picture(ToUShort(id), ToInt(ty))
  {
    var tail := d + "/" + (id + "@" + ty);
    assert tail == (d + "/" + id) + ['@'] + ty;
    LastIndexAt(d + "/" + id, '@', ty);
    MidAround(d + "/" + id, '@', ty);
    assert Mid(tail, |d| + 1, |id|) == id;
  }

  lemma NameParts(p: Protocol)
    ensures ProtocolOf(Name(p)) == Some(p)
  {
  }

  lemma PortAlone(port: nat)
    requires port < 0x1_0000
    ensures PortOf(Decimal(port)) == port
    ensures SlashTarget(Decimal(port)) == Unset && SlashPicture(Decimal(port)) == Unset
  {
    var d := Decimal(port);
    assert forall x :: x in d ==> IsDigit(x);
    LastIndexAbsent(d, '/');
    ReadDecimal(port);
  }

  lemma TailBack(c: Connection)
    requires WellFormed(c)
    ensures PortOf(Tail(c)) == c.port && SlashTarget(Tail(c)) == c.target
    ensures SlashPicture(Tail(c)) == if c.target.TextBuffer? then Picture(0, 0) else c.target
  {
    if c.target.Unset? {
      PortAlone(c.port);
    } else {
      TailParts(c.port, c.target);
    }
  }

  lemma ListedBack(c: Connection)
    requires WellFormed(c)
    ensures Listed(Pieces(Name(c.protocol), c.host, Tail(c))) == Some(c)
  {
    TailBack(c);
    NameParts(c.protocol);
  }

  lemma SingleBack(c: Connection)
    requires WellFormed(c)
    ensures Single(Pieces(Name(c.protocol), c.host, Tail(c))) ==
            if c.protocol == TCP_SSL then None
            else Some(c.(target := if c.target.TextBuffer? then Picture(0, 0) else c.target))
  {
    TailBack(c);
    NameParts(c.protocol);
  }

  /** A well-formed entry is read back as it was written. */
  lemma EntryRoundTrip(c: Connection)
    requires WellFormed(c)
    ensures ParseEntry(Render(c)) == Some(c)
  {
    RenderCut(c);
    ListedBack(c);
  }

  /** The two parsers agree on image entries over TCP and UDP; the single parser
      refuses TCP_SSL and takes a text buffer for image 0 of type 0. */
  lemma SingleAgrees(c: Connection)
    requires WellFormed(c)
    ensures ParseSingle(Render(c)) ==
            if c.protocol == TCP_SSL then None
            else Some(c.(target := if c.target.TextBuffer? then Picture(0, 0) else c.target))
  {
    RenderCut(c);
    SingleBack(c);
  }

  lemma TextBufferAsPicture(port: nat)
    ensures PictureOf(Decimal(port) + "/" + "TextBuffer", |Decimal(port)|) == Picture(0, 0)
  {
    var d := Decimal(port);
    var tail := d + "/" + "TextBuffer";
    assert forall x :: x in d ==> IsDigit(x);
    LastIndexAbsent(tail, '@');
    assert Mid(tail, |d| + 1, -1 - |d| - 1) == "TextBuffer";
    WordIsNoNumber("TextBuffer");
    assert Mid(tail, 0, -1) == tail;
    assert IsDigit(d[0]) && tail[0] == d[0];
    SlashInside(tail, |d|);
  }

  lemma WordIsNoNumber(s: string)
    requires s != [] && s[0] == 'T' && s[|s| - 1] == 'r'
    ensures ToUShort(s) == 0
  {
  }

  /** An image number without a type behind it is taken for type 0. */
  lemma IdWithoutType(port: nat, id: nat)
    requires id < 0x1_0000
    ensures PictureOf(Decimal(port) + "/" + Decimal(id), |Decimal(port)|) == Picture(id, 0)
  {
    var d, e := Decimal(port), Decimal(id);
    var tail := d + "/" + e;
    assert forall x :: x in d ==> IsDigit(x);
    assert forall x :: x in e ==> IsDigit(x);
    LastIndexAbsent(tail, '@');
    assert Mid(tail, |d| + 1, -1 - |d| - 1) == e;
    ReadDecimal(id);
    assert Mid(tail, 0, -1) == tail && tail[|d|] == '/' && tail[0] == d[0];
    SlashInside(tail, |d|);
  }

  lemma SlashInside(s: string, i: nat)
    requires i < |s| && s[i] == '/' && IsDigit(s[0])
    ensures ToInt(s) == 0
  {
    ForeignCharacter(s, i);
    TrimmedStart(s);
  }

  lemma {:induction false} TrimmedStart(s: string)
    requires s != [] && !IsSpace(s[0])
    ensures Trimmed(s) != [] && Trimmed(s)[0] == s[0]
  {
    if IsSpace(s[|s| - 1]) {
      TrimmedStart(s[..|s| - 1]);
    }
  }

  /** Blanks and line ends anywhere in an entry change nothing. */
  lemma BlanksIgnored(s: string, t: string)
    requires Without(s) == Without(t)
    ensures ParseEntry(s) == ParseEntry(t) && ParseSingle(s) == ParseSingle(t)
  {
    assert CutEntry(s) == CutEntry(t);
  }

  // ---- entries that are no good ----

  /** Without a colon there is no entry. */
  lemma NoColonSkipped(text: string)
    requires ':' !in Without(text)
    ensures ParseEntry(text) == None && ParseSingle(text) == None
  {
    LastIndexAbsent(Without(text), ':');
  }

  /** Nor with a protocol other than the three. */
  lemma ForeignSkipped(text: string, name: string, host: string, tail: string)
    requires Without(text) == (name + "://" + host) + [':'] + tail
    requires name != "TCP" && name != "UDP" && name != "TCP_SSL" && HostOk(host) && ':' !in tail
    ensures ParseEntry(text) == None && ParseSingle(text) == None
  {
    CutAt(name + "://" + host, tail);
    HeadAtColon(name, host);
    HeadAtSlash(name, host);
    assert CutEntry(text) == Pieces(name, host, tail);
  }

  // ---- lists ----

  /** A piece between semicolons: one without a colon, blank ones among them, one with
      a foreign protocol, or an entry spelled with any blanks. */
  datatype Part =
    | Bare(text: string)
    | Foreign(text: string, name: string, host: string, tail: string)
    | Spelled(text: string, entry: Connection)

  predicate PartOk(p: Part) {
    && ';' !in p.text
    && match p
       case Bare(text) => ':' !in Without(text)
       case Foreign(text, name, host, tail) =>
         && Without(text) == (name + "://" + host) + [':'] + tail
         && name != "TCP" && name != "UDP" && name != "TCP_SSL" && HostOk(host) && ':' !in tail
       case Spelled(text, c) => WellFormed(c) && Without(text) == Render(c)
  }

  function Joined(ps: seq<Part>): string {
    if ps == [] then "" else if |ps| == 1 then ps[0].text else ps[0].text + ";" + Joined(ps[1..])
  }

  function Entries(ps: seq<Part>): seq<Connection> {
    if ps == [] then []
    else (if ps[0].Spelled? then [ps[0].entry] else []) + Entries(ps[1..])
  }

  lemma {:induction false} ParsePartsConcat(a: seq<string>, b: seq<string>)
    ensures ParseParts(a + b) == ParseParts(a) + ParseParts(b)
    decreases |b|
  {
    if b == [] {
      assert a + b == a;
    } else {
      assert (a + b)[..|a + b| - 1] == a + b[..|b| - 1];
      ParsePartsConcat(a, b[..|b| - 1]);
    }
  }

  lemma OneText(text: string)
    ensures ParseParts(NonEmpty(text)) ==
            if text == "" then [] else match ParseEntry(text) case None => [] case Some(c) => [c]
  {
    if text != "" {
      assert [text][..0] == [];
    }
  }

  lemma PartParsed(p: Part)
    requires PartOk(p)
    ensures ParseParts(NonEmpty(p.text)) == if p.Spelled? then [p.entry] else []
  {
    OneText(p.text);
    match p
    case Bare(text) => NoColonSkipped(text);
    case Foreign(text, name, host, tail) => ForeignSkipped(text, name, host, tail);
    case Spelled(text, c) =>
      RenderChars(c);
      BlanksIgnored(text, Render(c));
      EntryRoundTrip(c);
  }

  lemma SplitJoined(text: string, rest: string)
    requires ';' !in text
    ensures Split(text) == NonEmpty(text)
    ensures Split(text + ";" + rest) == NonEmpty(text) + Split(rest)
  {
    assert text + ";" + rest == text + [';'] + rest;
    FirstIndexAt(text, ';', rest);
    var s := text + [';'] + rest;
    assert s[..|text|] == text && s[|text| + 1..] == rest;
  }

  /** A list of entries, however blanks, line ends, semicolons and pieces that are no
      entries are strewn in, is read back in order. */
  lemma {:induction false} PartsRoundTrip(ps: seq<Part>)
    requires forall p :: p in ps ==> PartOk(p)
    ensures ParseParts(Split(Joined(ps))) == Entries(ps)
  {
    if ps == [] {
      assert Split("") == [];
    } else {
      PartParsed(ps[0]);
      if |ps| == 1 {
        SplitJoined(ps[0].text, "");
        assert Entries(ps[1..]) == [];
      } else {
        PartsRoundTrip(ps[1..]);
        SplitJoined(ps[0].text, Joined(ps[1..]));
        ParsePartsConcat(NonEmpty(ps[0].text), Split(Joined(ps[1..])));
      }
    }
  }

  lemma ListRoundTrip(ps: seq<Part>)
    requires (forall p :: p in ps ==> PartOk(p)) && Joined(ps) != ""
    ensures ParseList(Joined(ps)) == Some(Entries(ps))
  {
    PartsRoundTrip(ps);
  }

  method ParseInputURLList(connections: string) returns (ok: bool, configs: seq<Connection>)
    ensures ParseList(connections) == if ok then Some(configs) else None
    ensures !ok ==> configs == []
  {
    if connections == [] {
      return false, [];
    }
    configs := ParseEach(Split(connections));
    ok := true;
  }

  /** Its loop. */
  method ParseEach(parts: seq<string>) returns (configs: seq<Connection>)
    ensures configs == ParseParts(parts)
  {
    configs := [];
    for n := 0 to |parts|
      invariant configs == ParseParts(parts[..n])
    {
      var entry := ParseOne(parts[n]);
      assert configs + (if entry.Some? then [entry.value] else []) == ParseParts(parts[..n + 1]) by {
        OneMorePart(parts, n);
      }
      if entry.Some? {
        configs := configs + [entry.value];
      }
    }
    assert parts[..|parts|] == parts;
  }

  lemma OneMorePart(parts: seq<string>, n: nat)
    requires n < |parts|
    ensures var entry := ParseEntry(parts[n]);
            ParseParts(parts[..n]) + (if entry.Some? then [entry.value] else []) == ParseParts(parts[..n + 1])
  {
    assert parts[..n + 1][..n] == parts[..n];
  }

  /** The body of that loop. */
  method ParseOne(text: string) returns (r: Option<Connection>)
    ensures r == ParseEntry(text)
  {
    var str := Without(text);
    var colonPos := LastIndexOf(str, ':');
    if colonPos == -1 {
      return None;
    }
    var portAndImageId := Mid(str, colonPos + 1, -1);
    var port, target := ParsePortAndImageId(portAndImageId);
    var hostAndProtocol := Mid(str, 0, colonPos);
    var protocol := Mid(hostAndProtocol, 0, LastIndexOf(hostAndProtocol, ':'));
    var host := Mid(hostAndProtocol, LastIndexOf(hostAndProtocol, '/') + 1, -1);
    assert CutHead(hostAndProtocol, portAndImageId) == Pieces(protocol, host, portAndImageId);
    assert CutClean(str) == CutHead(hostAndProtocol, portAndImageId);
    var kind := ProtocolOf(protocol);
    r := match kind
         case None => None
         case Some(k) => Some(Connection(k, host, port, target));
  }

  /** parseInputConfigEntry: the old connection stays when the text is no good. */
  method ParseInputConfigEntry(text: string, previous: Connection) returns (ok: bool, r: Connection)
    ensures ok <==> text != ""
    ensures r == if text != "" && ParseSingle(text).Some? then ParseSingle(text).value else previous
  {
    r := previous;
    if text == "" {
      return false, previous;
    }
    ok := true;
    var str := Without(text);
    var colonPos := LastIndexOf(str, ':');
    if colonPos != -1 {
      var portAndImageId := Mid(str, colonPos + 1, -1);
      var port, target := ParsePortAndPicture(portAndImageId);
      var hostAndProtocol := Mid(str, 0, colonPos);
      var protocol := Mid(hostAndProtocol, 0, LastIndexOf(hostAndProtocol, ':'));
      var host := Mid(hostAndProtocol, LastIndexOf(hostAndProtocol, '/') + 1, -1);
      assert CutHead(hostAndProtocol, portAndImageId) == Pieces(protocol, host, portAndImageId);
      assert CutClean(str) == CutHead(hostAndProtocol, portAndImageId);
      match ProtocolOf(protocol) {
        case Some(TCP) => r := Connection(TCP, host, port, target);
        case Some(UDP) => r := Connection(UDP, host, port, target);
        case _ =>
      }
    }
  }

  /** The part of it behind the last colon. */
  method ParsePortAndPicture(portAndImageId: string) returns (port: nat, target: Target)
    ensures port == PortOf(portAndImageId) && target == SlashPicture(portAndImageId)
  {
    target := Unset;
    var pos := LastIndexOf(portAndImageId, '/');
    if pos > 0 {
      port := ToUShort(Mid(portAndImageId, 0, pos));
      target := PictureOf(portAndImageId, pos);
    } else {
      port := ToUShort(portAndImageId);
    }
  }

  method ParsePortAndImageId(portAndImageId: string) returns (port: nat, target: Target)
    ensures port == PortOf(portAndImageId) && target == SlashTarget(portAndImageId)
  {
    target := Unset;
    var pos := LastIndexOf(portAndImageId, '/');
    if pos > 0 {
      port := ToUShort(Mid(portAndImageId, 0, pos));
      if Mid(portAndImageId, pos + 1, -1) == "TextBuffer" {
        target := TextBuffer;
      } else {
        var posAt := LastIndexOf(portAndImageId, '@');
        target := Picture(ToUShort(Mid(portAndImageId, pos + 1, posAt - pos - 1)),
                          ToInt(Mid(portAndImageId, posAt + 1, -1)));
      }
    } else {
      port := ToUShort(portAndImageId);
    }
  }
}

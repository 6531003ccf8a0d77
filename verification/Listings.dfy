/** The lines of the users and files listings, and the loops that build them. */
module Listings {
  import opened Bytes
  import opened Constructors
  import opened LinkedLists
  import opened Records
  import opened Registry
  import opened Servers
  import opened StringLists
  import StringTransfer

  /** "%-*s": pads with spaces on the right. */
  function Pad(s: CString, width: nat): (r: CString)
    ensures s <= r && |r| == if |s| < width then width else |s|
  {
    if |s| < width then s + seq(width - |s|, _ => 32) else s
  }

  /** "%d" and "%i" of an unsigned integer: read as a signed one. */
  function Signed32(n: uint32): CString {
    if n < 0x8000_0000 then Decimal(n) else [45] + Decimal(TWO_TO_THE_32 - n)
  }

  /** "%li" of an unsigned 64-bit integer. */
  function Signed64(n: uint64): CString {
    if n < 0x8000_0000_0000_0000 then Decimal(n) else [45] + Decimal(0x1_0000_0000_0000_0000 - n)
  }

  function UserLine(c: Client, showIp: bool, showId: bool): CString {
    Pad(c.name, 10) + (if showIp then Pad(c.ip, 18) else []) + if showId then Signed32(c.id) else []
  }

  function FileLine(f: SharedFile, owner: CString): CString {
    Ascii("ID: ") + Pad(Signed32(f.id), 10) + Ascii(" Name: ") + Pad(f.name, 20)
    + Ascii(" Size: ") + Pad(Signed64(f.size), 10) + Ascii(" Uploaded by: ") + Pad(owner, 10)
  }

  /** One line per listed client, in list order. */
  function UserLines(cs: seq<Client>, showIp: bool, showId: bool): (lines: seq<CString>)
    ensures |lines| == |cs|
  {
    seq(|cs|, i requires 0 <= i < |cs| => UserLine(cs[i], showIp, showId))
  }

  /** Every file names a listed client. */
  predicate Owned(fs: seq<SharedFile>, cs: seq<Client>) {
    forall f :: f in fs ==> ClientIndex(cs, f.clientId) < |cs|
  }

  /** The name of the client with this id; the listing is only built while every file has a listed owner. */
  function OwnerName(cs: seq<Client>, id: uint32): CString {
    var k := ClientIndex(cs, id);
    if k < |cs| then cs[k].name else []
  }

  /** One line per listed file, in list order, each with the name of its owner. */
  function FileLines(fs: seq<SharedFile>, cs: seq<Client>): (lines: seq<CString>)
    ensures |lines| == |fs|
  {
    seq(|fs|, i requires 0 <= i < |fs| => FileLine(fs[i], OwnerName(cs, fs[i].clientId)))
  }

  // ----- every line fits a frame -----

  /** Names and addresses fit their fields. */
  predicate FieldsFit(cs: seq<Client>, fs: seq<SharedFile>) {
    && (forall c :: c in cs ==> |c.name| < 32 && |c.ip| <= 16)
    && (forall f :: f in fs ==> |f.name| < 256)
  }

  lemma {:induction false} DecimalLength(n: nat, digits: nat, bound: nat)
    requires digits >= 1 && bound == Pow10(digits) && n < bound
    ensures |Decimal(n)| <= digits
  {
    if n >= 10 {
      assert bound == 10 * Pow10(digits - 1);
      DecimalLength(n / 10, digits - 1, bound / 10);
    }
  }

  function Pow10(n: nat): nat {
    if n == 0 then 1 else 10 * Pow10(n - 1)
  }

  lemma Id32Length(n: uint32)
    ensures |Signed32(n)| <= 11
  {
    assert Pow10(5) == 100_000;
    assert Pow10(10) == 10_000_000_000;
    DecimalLength(if n < 0x8000_0000 then n else TWO_TO_THE_32 - n, 10, Pow10(10));
  }

  lemma Size64Length(n: uint64)
    ensures |Signed64(n)| <= 21
  {
    assert Pow10(5) == 100_000;
    assert Pow10(10) == 10_000_000_000;
    assert Pow10(15) == 1_000_000_000_000_000;
    assert Pow10(20) == 100_000_000_000_000_000_000;
    DecimalLength(if n < 0x8000_0000_0000_0000 then n else 0x1_0000_0000_0000_0000 - n, 20, Pow10(20));
  }

  lemma UserLinesSendable(cs: seq<Client>, showIp: bool, showId: bool)
    requires FieldsFit(cs, [])
    ensures StringTransfer.Sendable(UserLines(cs, showIp, showId))
  {
    hide Decimal, Signed32;
    forall i | 0 <= i < |cs|
      ensures |UserLine(cs[i], showIp, showId)| <= StringTransfer.MAX_STRING
    {
      assert cs[i] in cs;
      Id32Length(cs[i].id);
    }
  }

  lemma FileLinesSendable(fs: seq<SharedFile>, cs: seq<Client>)
    requires FieldsFit(cs, fs)
    ensures StringTransfer.Sendable(FileLines(fs, cs))
  {
    hide Decimal, Signed32, Signed64, ClientIndex;
    forall i | 0 <= i < |fs|
      ensures |FileLine(fs[i], OwnerName(cs, fs[i].clientId))| <= StringTransfer.MAX_STRING
    {
      assert fs[i] in fs;
      OwnerNameFits(cs, fs, fs[i].clientId);
      Id32Length(fs[i].id);
      Size64Length(fs[i].size);
    }
  }

  lemma OwnerNameFits(cs: seq<Client>, fs: seq<SharedFile>, id: uint32)
    requires FieldsFit(cs, fs)
    ensures |OwnerName(cs, id)| < 32
  {
    var k := ClientIndex(cs, id);
    if k < |cs| {
      assert cs[k] in cs;
    }
  }

  // ----- what a reader finds in the lines -----

  function Width(s: CString, width: nat): nat {
    if |s| < width then width else |s|
  }

  /** The digits of a number end where something else follows. */
  lemma {:induction false} DigitsStop(s: seq<uint8>, rest: seq<uint8>, acc: int)
    requires forall i :: 0 <= i < |s| ==> IsDigit(s[i])
    requires rest == [] || !IsDigit(rest[0])
    ensures LeadingDigits(s + rest, acc) == LeadingDigits(s, acc)
  {
    if s == [] {
      assert s + rest == rest;
    } else {
      assert (s + rest)[1..] == s[1..] + rest;
      DigitsStop(s[1..], rest, 10 * acc + (s[0] - 48));
    }
  }

  /** The number at the front of a text is the one printed there. */
  lemma NumberRead(n: nat, rest: seq<uint8>)
    requires rest == [] || !IsDigit(rest[0])
    ensures Atoi(Decimal(n) + rest) == n
  {
    hide Decimal;
    DigitsStop(Decimal(n), rest, 0);
    LeadingDigitsOfDecimal(n);
    assert IsDigit((Decimal(n) + rest)[0]);
  }

  /** A padded number, with more text behind it that begins with a space. */
  lemma PaddedNumberRead(n: nat, width: nat, rest: seq<uint8>)
    requires rest != [] && rest[0] == 32
    ensures Atoi(Pad(Decimal(n), width) + rest) == n
  {
    hide Decimal;
    var d := Decimal(n);
    var tail := Pad(d, width)[|d|..] + rest;
    assert tail[0] == 32;
    assert Pad(d, width) + rest == d + tail;
    NumberRead(n, tail);
  }

  lemma Columns(a: seq<uint8>, b: seq<uint8>, c: seq<uint8>, d: seq<uint8>, e: seq<uint8>, f: seq<uint8>, g: seq<uint8>,
                h: seq<uint8>)
    ensures var line := a + b + c + d + e + f + g + h;
            var dAt := |a| + |b| + |c|;
            var fAt := dAt + |d| + |e|;
            var hAt := fAt + |f| + |g|;
            && line[..|a|] == a && line[|a|..] == b + (c + d + e + f + g + h)
            && line[dAt..dAt + |d|] == d && line[fAt..] == f + (g + h) && line[hAt..] == h
  {
  }

  lemma Labels()
    ensures |Ascii("ID: ")| == 4 && |Ascii(" Name: ")| == 7 && |Ascii(" Size: ")| == 7 && |Ascii(" Uploaded by: ")| == 14
    ensures Ascii(" Name: ")[0] == Ascii(" Uploaded by: ")[0] == 32
  {
  }

  /** A field at the front of its padded column. */
  lemma FieldAtFront(line: seq<uint8>, from: nat, s: CString, width: nat)
    requires from + Width(s, width) <= |line| && line[from..from + Width(s, width)] == Pad(s, width)
    ensures line[from..from + |s|] == s
  {
    assert line[from..from + |s|] == Pad(s, width)[..|s|];
  }

  /** Where the columns of the line of a file begin. */
  function NameAt(f: SharedFile): nat {
    4 + Width(Signed32(f.id), 10) + 7
  }

  function SizeAt(f: SharedFile): nat {
    NameAt(f) + Width(f.name, 20) + 7
  }

  function OwnerAt(f: SharedFile): nat {
    SizeAt(f) + Width(Signed64(f.size), 10) + 14
  }

  lemma FileColumns(f: SharedFile, owner: CString)
    ensures var line := FileLine(f, owner);
            && |line| == OwnerAt(f) + Width(owner, 10)
            && line[..4] == Ascii("ID: ")
            && line[4..] == Pad(Signed32(f.id), 10)
                            + (Ascii(" Name: ") + Pad(f.name, 20) + Ascii(" Size: ") + Pad(Signed64(f.size), 10)
                               + Ascii(" Uploaded by: ") + Pad(owner, 10))
            && line[NameAt(f)..NameAt(f) + Width(f.name, 20)] == Pad(f.name, 20)
            && line[SizeAt(f)..] == Pad(Signed64(f.size), 10) + (Ascii(" Uploaded by: ") + Pad(owner, 10))
            && line[OwnerAt(f)..] == Pad(owner, 10)
  {
    Labels();
    hide Signed32, Signed64, Ascii, Pad;
    Columns(Ascii("ID: "), Pad(Signed32(f.id), 10), Ascii(" Name: "), Pad(f.name, 20), Ascii(" Size: "),
            Pad(Signed64(f.size), 10), Ascii(" Uploaded by: "), Pad(owner, 10));
  }

  /** Behind "ID: " the line of a file shows the number of the file itself. */
  lemma FileLineShowsId(f: SharedFile, owner: CString)
    requires f.id < 0x8000_0000
    ensures var line := FileLine(f, owner);
            |line| >= 4 && line[..4] == Ascii("ID: ") && Atoi(line[4..]) == f.id
  {
    FileColumns(f, owner);
    Labels();
    hide Decimal, Signed32, Signed64, Atoi, Ascii, Pad, FileLine;
    SmallIsDecimal32(f.id);
    var rest := Ascii(" Name: ") + Pad(f.name, 20) + Ascii(" Size: ") + Pad(Signed64(f.size), 10) + Ascii(" Uploaded by: ")
    + Pad(owner, 10);
    assert rest[0] == Ascii(" Name: ")[0];
    PaddedNumberRead(f.id, 10, rest);
  }

  /** The other columns show its name, its size and the name of its owner. */
  lemma FileLineShowsFields(f: SharedFile, owner: CString)
    ensures var line := FileLine(f, owner);
            && OwnerAt(f) + |owner| <= |line|
            && line[NameAt(f)..NameAt(f) + |f.name|] == f.name
            && (f.size < 0x8000_0000_0000_0000 ==> Atoi(line[SizeAt(f)..]) == f.size)
            && line[OwnerAt(f)..OwnerAt(f) + |owner|] == owner
  {
    FileColumns(f, owner);
    Labels();
    hide Decimal, Signed32, Signed64, Atoi, Ascii, Pad, FileLine;
    var line := FileLine(f, owner);
    FieldAtFront(line, NameAt(f), f.name, 20);
    assert line[OwnerAt(f)..OwnerAt(f) + Width(owner, 10)] == line[OwnerAt(f)..];
    FieldAtFront(line, OwnerAt(f), owner, 10);
    if f.size < 0x8000_0000_0000_0000 {
      SmallIsDecimal64(f.size);
      PaddedNumberRead(f.size, 10, Ascii(" Uploaded by: ") + Pad(owner, 10));
    }
  }

  lemma SmallIsDecimal32(n: uint32)
    ensures n < 0x8000_0000 ==> Signed32(n) == Decimal(n)
  {
  }

  lemma SmallIsDecimal64(n: uint64)
    ensures n < 0x8000_0000_0000_0000 ==> Signed64(n) == Decimal(n)
  {
  }

  /** A download by what the listing shows behind "ID: " finds the file of the line. */
  lemma ListedIdResolves(s: Store, i: nat)
    requires FileIdsRise(s.files, s.filesAdded) && i < |s.files| && s.files[i].id < 0x8000_0000
    ensures Resolve(s, FileLines(s.files, s.clients)[i][4..], true) == Some(s.files[i])
  {
    hide FileIdsRise, FileLine, OwnerName, Atoi, Resolve;
    var f := s.files[i];
    FileLineShowsId(f, OwnerName(s.clients, f.clientId));
    ResolveByIdIff(s, FileLines(s.files, s.clients)[i][4..], f);
  }

  lemma UserColumns(a: seq<uint8>, b: seq<uint8>, c: seq<uint8>)
    ensures var line := a + b + c;
            line[0..|a|] == a && line[|a|..|a| + |b|] == b && line[|a| + |b|..] == c
  {
  }

  /** The line of a user: its name; its address when asked for; its number when asked for. */
  lemma UserLineReads(c: Client, showIp: bool, showId: bool)
    ensures var line := UserLine(c, showIp, showId);
            var ipAt := Width(c.name, 10);
            var idAt := ipAt + if showIp then Width(c.ip, 18) else 0;
            && |c.name| <= ipAt <= idAt <= |line| && line[0..|c.name|] == c.name
            && (showIp ==> ipAt + |c.ip| <= idAt && line[ipAt..ipAt + |c.ip|] == c.ip)
            && (if showId then c.id < 0x8000_0000 ==> Atoi(line[idAt..]) == c.id else |line| == idAt)
  {
    hide Decimal, Signed32, Atoi, Pad;
    var line := UserLine(c, showIp, showId);
    var name, ip := Pad(c.name, 10), if showIp then Pad(c.ip, 18) else [];
    UserColumns(name, ip, if showId then Signed32(c.id) else []);
    FieldAtFront(line, 0, c.name, 10);
    if showIp {
      FieldAtFront(line, |name|, c.ip, 18);
    }
    if showId && c.id < 0x8000_0000 {
      SmallIsDecimal32(c.id);
      NumberRead(c.id, []);
      assert Decimal(c.id) + [] == Decimal(c.id);
    }
  }

  // ----- the loops -----

  /** Rewinds the client list's own iterator and walks it. */
  method BuildUserLines(server: Server, showIp: bool, showId: bool) returns (list: StringList)
    requires server.Valid()
    modifies server.clientList.it
    ensures server.Valid() && server.Model() == old(server.Model()) && list.Valid() && fresh(list.Repr)
    ensures list.Strings() == UserLines(server.Model().clients, showIp, showId)
    ensures var cs := server.Model().clients;
            forall i :: 0 <= i < |cs| ==> list.Strings()[i] == UserLine(cs[i], showIp, showId)
  {
    hide UserLine, UserLines, server.Valid, server.Model, server.AtClient, list.Valid, list.Strings;
    ghost var s := server.Model();
    ghost var cs := s.clients;
    list := new StringList();
    var client := server.FirstClient();
    ghost var k := 0;
    UserLinesStep(cs, 0, showIp, showId);
    while client != null
      invariant server.Valid() && server.Model() == s
      invariant k <= |cs| && (client == null) == (k == |cs|)
      invariant client != null ==> client.data == cs[k] && server.AtClient(k + 1)
      invariant list.Valid() && fresh(list.Repr) && list.Strings() == UserLines(cs[..k], showIp, showId)
      decreases |cs| - k
    {
      UserLinesStep(cs, k, showIp, showId);
      list.Add(UserLine(client.data, showIp, showId));
      k := k + 1;
      client := server.NextClient(k);
    }
    UserLinesStep(cs, k, showIp, showId);
    UserLineAt(cs, showIp, showId);
  }

  lemma UserLineAt(cs: seq<Client>, showIp: bool, showId: bool)
    ensures forall i :: 0 <= i < |cs| ==> UserLines(cs, showIp, showId)[i] == UserLine(cs[i], showIp, showId)
  {
  }

  lemma UserLinesStep(cs: seq<Client>, k: nat, showIp: bool, showId: bool)
    requires k <= |cs|
    ensures cs[..|cs|] == cs && UserLines(cs[..0], showIp, showId) == []
    ensures k < |cs| ==>
              UserLines(cs[..k + 1], showIp, showId) == UserLines(cs[..k], showIp, showId) + [UserLine(cs[k], showIp, showId)]
  {
    hide UserLine;
  }

  /** The list shares no object with the server's lists and disk. */
  ghost predicate Apart(server: Server, list: StringList)
    reads list, server.clientList, server.clientList.list, server.fileList, server.fileList.list
  {
    && server.disk !in list.Repr && server.clientList.it !in list.Repr
    && server.clientList !in list.Repr && server.clientList.list !in list.Repr
    && server.fileList !in list.Repr && server.fileList.list !in list.Repr
    && (forall n :: n in server.clientList.list.nodes ==> n !in list.Repr)
    && (forall n :: n in server.fileList.list.nodes ==> n !in list.Repr)
  }

  /** The body of the loop below: the line of one file, with its owner looked up; false where the program
      follows the null pointer of an owner that is not listed. */
  method AddFileLine(server: Server, file: Node<SharedFile>, list: StringList, ghost k: nat) returns (alive: bool)
    requires server.Valid() && list.Valid() && Apart(server, list)
    requires k < |server.Model().files| && file.data == server.Model().files[k]
    requires list.Strings() == FileLines(server.Model().files[..k], server.Model().clients)
    modifies list.Repr
    ensures server.Valid() && server.Model() == old(server.Model())
    ensures list.Valid() && fresh(list.Repr - old(list.Repr))
    ensures var s := server.Model();
            && alive == (ClientIndex(s.clients, s.files[k].clientId) < |s.clients|)
            && (alive ==> list.Strings() == FileLines(s.files[..k + 1], s.clients))
  {
    hide FileLine, FileLines, ClientIndex, server.Valid, server.Model, list.Valid, list.Strings;
    ghost var cs, fs := server.Model().clients, server.Model().files;
    FileLinesStep(fs, cs, k);
    var owner := server.FindClient(file.data.clientId);
    if owner == null {
      return false;
    }
    list.Add(FileLine(file.data, owner.data.name));
    alive := true;
  }

  /** Walks the files; it dies on the way exactly when a file has no listed owner. */
  method BuildFileLines(server: Server) returns (alive: bool, list: StringList)
    requires server.Valid()
    ensures server.Valid() && server.Model() == old(server.Model()) && list.Valid() && fresh(list.Repr)
    ensures alive == Owned(server.Model().files, server.Model().clients)
    ensures alive ==> list.Strings() == FileLines(server.Model().files, server.Model().clients)
    ensures alive ==>
              var fs, cs := server.Model().files, server.Model().clients;
              forall i :: 0 <= i < |fs| ==> list.Strings()[i] == FileLine(fs[i], OwnerName(cs, fs[i].clientId))
  {
    hide FileLine, FileLines, ClientIndex, Owned, server.Valid, server.Model, server.AtFile, list.Valid, list.Strings;
    ghost var s := server.Model();
    list := new StringList();
    var it := server.NewFileIterator();
    var file := server.NextFile(it, 0);
    ghost var k := 0;
    FileLinesStep(s.files, s.clients, 0);
    OwnedStep(s.files, s.clients, 0);
    while file != null
      invariant server.Valid() && server.Model() == s
      invariant k <= |s.files| && (file == null) == (k == |s.files|)
      invariant file != null ==> file.data == s.files[k] && server.AtFile(it, k + 1)
      invariant Owned(s.files[..k], s.clients)
      invariant list.Valid() && fresh(list.Repr) && it !in list.Repr
      invariant list.Strings() == FileLines(s.files[..k], s.clients)
      decreases |s.files| - k
    {
      OwnedStep(s.files, s.clients, k);
      alive := AddFileLine(server, file, list, k);
      if !alive {
        return;
      }
      k := k + 1;
      file := server.NextFile(it, k);
    }
    alive := true;
    FileLinesStep(s.files, s.clients, k);
    FileLineAt(s.files, s.clients);
  }

  lemma OwnedStep(fs: seq<SharedFile>, cs: seq<Client>, k: nat)
    requires k <= |fs|
    ensures Owned(fs[..0], cs) && fs[..|fs|] == fs
    ensures k < |fs| && Owned(fs[..k], cs) ==>
              if ClientIndex(cs, fs[k].clientId) < |cs| then Owned(fs[..k + 1], cs) else !Owned(fs, cs)
  {
    hide ClientIndex;
    if k < |fs| {
      assert fs[k] in fs && fs[..k + 1] == fs[..k] + [fs[k]];
    }
  }

  lemma FileLineAt(fs: seq<SharedFile>, cs: seq<Client>)
    ensures forall i :: 0 <= i < |fs| ==> FileLines(fs, cs)[i] == FileLine(fs[i], OwnerName(cs, fs[i].clientId))
  {
  }

  lemma FileLinesStep(fs: seq<SharedFile>, cs: seq<Client>, k: nat)
    requires k <= |fs|
    ensures fs[..|fs|] == fs && FileLines(fs[..0], cs) == []
    ensures k < |fs| ==>
              FileLines(fs[..k + 1], cs) == FileLines(fs[..k], cs) + [FileLine(fs[k], OwnerName(cs, fs[k].clientId))]
  {
    hide FileLine, OwnerName;
  }
}

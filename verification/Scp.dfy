// scp.py: a recursive put linearises a directory tree into C, D and E commands,
// and the receiving side interprets the same commands.

/** The text of a command line: whitespace-separated fields and numbers. */
module ScpText {
  import opened Options
  import opened Text

  function DropBlanks(s: string): (r: string)
    ensures |r| <= |s| && (r != [] ==> !Whitespace(r[0]))
  {
    if s != [] && Whitespace(s[0]) then DropBlanks(s[1..]) else s
  }

  function Word(s: string): (r: string)
    ensures r <= s && (s != [] && !Whitespace(s[0]) ==> r != [])
  {
    if s != [] && !Whitespace(s[0]) then [s[0]] + Word(s[1..]) else []
  }

  // str.split() without arguments
  function Fields(s: string): seq<string>
    decreases |s|
  {
    var t := DropBlanks(s);
    if t == [] then [] else [Word(t)] + Fields(t[|Word(t)|..])
  }

  predicate IsWord(w: string) {
    w != [] && forall c :: c in w ==> !Whitespace(c)
  }

  lemma {:induction false} WordOf(w: string, rest: string)
    requires (forall c :: c in w ==> !Whitespace(c)) && rest != [] && Whitespace(rest[0])
    ensures Word(w + rest) == w
  {
    if w != [] {
      assert (w + rest)[1..] == w[1..] + rest;
      WordOf(w[1..], rest);
    } else {
      assert w + rest == rest;
    }
  }

  lemma FieldThen(w: string, c: char, rest: string)
    requires IsWord(w) && Whitespace(c)
    ensures Fields(w + [c] + rest) == [w] + Fields(rest)
    ensures Fields([c] + rest) == Fields(rest)
  {
    var s := w + [c] + rest;
    assert s == w + ([c] + rest);
    WordOf(w, [c] + rest);
    assert DropBlanks(s) == s;
    assert s[|w|..] == [c] + rest;
    assert ([c] + rest)[1..] == rest;
    assert DropBlanks([c] + rest) == DropBlanks(rest);
  }

  lemma OneField(c: string)
    requires IsWord(c)
    ensures Fields(c + "\n") == [c]
  {
    FieldThen(c, '\n', "");
    assert c + ['\n'] + "" == c + "\n";
  }

  lemma TwoFields(b: string, c: string)
    requires IsWord(b) && IsWord(c)
    ensures Fields(b + " " + c + "\n") == [b, c]
  {
    OneField(c);
    FieldThen(b, ' ', c + "\n");
    assert b + [' '] + (c + "\n") == b + " " + c + "\n";
  }

  lemma Regroup(a: string, b: string, c: string)
    ensures a + " " + b + " " + c + "\n" == a + [' '] + (b + " " + c + "\n")
  {
  }

  lemma ThreeFields(a: string, b: string, c: string)
    requires IsWord(a) && IsWord(b) && IsWord(c)
    ensures Fields(a + " " + b + " " + c + "\n") == [a, b, c]
  {
    TwoFields(b, c);
    FieldThen(a, ' ', b + " " + c + "\n");
    Regroup(a, b, c);
  }

  predicate Digit(c: char, base: nat) {
    '0' <= c && (c as int) - ('0' as int) < base
  }

  // int(s, base) on unsigned digit strings
  function ParseNat(s: string, base: nat): Option<nat> {
    if s == [] then None
    else
      var c := s[|s| - 1];
      if !Digit(c, base) then None
      else
        var d := c as int - '0' as int;
        if |s| == 1 then Some(d)
        else match ParseNat(s[..|s| - 1], base)
             case None => None
             case Some(v) => Some(v * base + d)
  }

  // "%d" % n
  function Decimal(n: nat): string {
    if n < 10 then [('0' as int + n) as char]
    else Decimal(n / 10) + [('0' as int + n % 10) as char]
  }

  lemma {:induction false} DecimalRoundTrip(n: nat)
    ensures ParseNat(Decimal(n), 10) == Some(n) && IsWord(Decimal(n))
  {
    if n >= 10 {
      DecimalRoundTrip(n / 10);
      var s, c := Decimal(n / 10), ('0' as int + n % 10) as char;
      assert (s + [c])[..|s|] == s;
    }
  }

  // Four octal digits, as _read_stats renders a mode.
  predicate Mode(m: string) {
    |m| == 4 && forall c :: c in m ==> Digit(c, 8)
  }

  lemma ModeParses(m: string)
    requires Mode(m)
    ensures ParseNat(m, 8).Some? && IsWord(m)
  {
    assert Digit(m[0], 8) && Digit(m[1], 8) && Digit(m[2], 8) && Digit(m[3], 8);
    assert m[..3][..2] == m[..2] && m[..2][..1] == m[..1];
    assert ParseNat(m[..1], 8).Some?;
    assert ParseNat(m[..2], 8).Some?;
    assert ParseNat(m[..3], 8).Some?;
    forall c | c in m ensures !Whitespace(c) {
      assert Digit(c, 8);
    }
  }
}

/** Trees, the walk over them, the commands sent for it, and the receiver's reading. */
module ScpProtocol {
  import opened Options
  import opened PosixPath
  import opened ScpText

  type Byte = b: nat | b < 256

  // --- the tree being sent ---

  datatype File = File(name: string, mode: string, data: seq<Byte>)
  datatype Dir = Dir(mode: string, files: seq<File>, subs: seq<Sub>)
  datatype Sub = Sub(name: string, dir: Dir)

  ghost predicate WellFormed(d: Dir)
    decreases d, 1
  {
    && Mode(d.mode) && FilesOk(d.files) && SubsOk(d.subs)
    && forall f, s :: f in d.files && s in d.subs ==> f.name != s.name
  }

  ghost predicate FilesOk(fs: seq<File>) {
    forall f :: f in fs ==> Name(f.name) && Mode(f.mode)
  }

  ghost predicate SubsOk(subs: seq<Sub>)
    decreases subs, 0
  {
    subs != [] ==>
      && Name(subs[0].name) && WellFormed(subs[0].dir)
      && (forall s :: s in subs[1..] ==> s.name != subs[0].name)
      && SubsOk(subs[1..])
  }

  // --- the file system ---

  datatype Node = DirNode | FileNode(data: seq<Byte>)
  type FileSystem = map<string, Node>

  // What the tree d occupies when its top directory is path q.
  ghost function Flatten(q: string, d: Dir): FileSystem
    decreases d, 1
  {
    map[q := DirNode] + FlattenFiles(q, d.files) + FlattenSubs(q, d.subs)
  }

  ghost function FlattenFiles(q: string, fs: seq<File>): FileSystem {
    if fs == [] then map[] else map[q + "/" + fs[0].name := FileNode(fs[0].data)] + FlattenFiles(q, fs[1..])
  }

  ghost function FlattenSubs(q: string, subs: seq<Sub>): FileSystem
    decreases subs, 0
  {
    if subs == [] then map[]
    else Flatten(q + "/" + subs[0].name, subs[0].dir) + FlattenSubs(q, subs[1..])
  }

  // --- sending ---

  // One exchange: a command line and, for a file, the bytes that follow it.
  datatype Msg = Msg(line: string, payload: seq<Byte>)

  const POP := Msg("E\n", [])

  function PushMsg(mode: string, name: string): Msg {
    Msg("D" + mode + " 0 " + name + "\n", [])
  }

  function FileMsg(f: File): Msg {
    Msg("C" + f.mode + " " + Decimal(|f.data|) + " " + f.name + "\n", f.data + [0])
  }

  function FileMsgs(fs: seq<File>): seq<Msg> {
    if fs == [] then [] else [FileMsg(fs[0])] + FileMsgs(fs[1..])
  }

  function Pops(n: nat): (r: seq<Msg>)
    ensures |r| == n
  {
    if n == 0 then [] else [POP] + Pops(n - 1)
  }

  // One step of os.walk: the directory below the base, its mode and its files.
  datatype Visit = Visit(comps: seq<string>, mode: string, files: seq<File>)

  function Walk(cs: seq<string>, d: Dir): seq<Visit>
    decreases d, 1
  {
    [Visit(cs, d.mode, d.files)] + WalkSubs(cs, d.subs)
  }

  function WalkSubs(cs: seq<string>, subs: seq<Sub>): seq<Visit>
    decreases subs, 0
  {
    if subs == [] then [] else Walk(cs + [subs[0].name], subs[0].dir) + WalkSubs(cs, subs[1..])
  }

  // cs may be pushed after last: it is a child of an ancestor (or of last itself)
  // other than the one last lies in.
  ghost predicate CanFollow(last: seq<string>, cs: seq<string>) {
    && Names(last) && Names(cs) && cs != []
    && cs[..|cs| - 1] <= last && !(cs <= last)
  }

  // Visits in pre-order below the base.
  ghost predicate PreOrder(last: seq<string>, vs: seq<Visit>)
    decreases |vs|
  {
    vs != [] ==> CanFollow(last, vs[0].comps) && FilesOk(vs[0].files) && PreOrder(vs[0].comps, vs[1..])
  }

  function LastOf(last: seq<string>, vs: seq<Visit>): seq<string> {
    if vs == [] then last else vs[|vs| - 1].comps
  }

  // Pop to one level above the next directory, push it, send its files.
  function VisitMsgs(last: seq<string>, v: Visit): seq<Msg>
    requires v.comps != [] && |v.comps| <= |last| + 1
  {
    Pops(|last| + 1 - |v.comps|) + [PushMsg(v.mode, v.comps[|v.comps| - 1])] + FileMsgs(v.files)
  }

  ghost function Transcript(last: seq<string>, vs: seq<Visit>): seq<Msg>
    requires PreOrder(last, vs)
    decreases |vs|
  {
    if vs == [] then [] else VisitMsgs(last, vs[0]) + Transcript(vs[0].comps, vs[1..])
  }

  // --- receiving ---

  datatype RState = RState(recvDir: string, fs: FileSystem)

  // Endless: the source keeps asking a channel that has nothing more to give.
  datatype Failure = BadFormat | IOError | NotADirectory | StatusError | UnknownCommand | Endless

  // A failed command leaves the receiver in state st, perhaps with a file partly written.
  datatype Outcome = Good(st: RState) | Bad(error: Failure, st: RState)

  function Error(r: Outcome): Option<Failure> {
    match r
    case Good(_) => None
    case Bad(e, _) => Some(e)
  }

  predicate IsDir(fs: FileSystem, p: string) {
    p in fs && fs[p].DirNode?
  }

  function RecvPushd(st: RState, cmd: string): Outcome {
    var parts := Fields(cmd);
    if |parts| < 3 || ParseNat(parts[0], 8).None? then Bad(BadFormat, st)
    else
      var path := Join(st.recvDir, parts[2]);
      if path !in st.fs then
        if IsDir(st.fs, DirName(path)) then Good(RState(path, st.fs[path := DirNode])) else Bad(IOError, st)
      else if IsDir(st.fs, path) then Good(st.(recvDir := path))
      else Bad(NotADirectory, st)
  }

  function RecvPopd(st: RState): Outcome {
    Good(st.(recvDir := Split(st.recvDir).0))
  }

  function RecvFile(st: RState, cmd: string, payload: seq<Byte>): Outcome {
    var parts := Fields(cmd);
    if |parts| < 3 || ParseNat(parts[0], 8).None? || ParseNat(parts[1], 10).None? then Bad(BadFormat, st)
    else
      var size, path := ParseNat(parts[1], 10).value, Join(st.recvDir, parts[2]);
      if IsDir(st.fs, path) || !IsDir(st.fs, DirName(path)) then Bad(IOError, st)
      else if |payload| < size then Bad(Endless, st.(fs := st.fs[path := FileNode(payload)]))
      else
        var stored := st.(fs := st.fs[path := FileNode(payload[..size])]);
        if |payload| > size && payload[size] != 0 then Bad(StatusError, stored) else Good(stored)
  }

  // Times are checked and not used.
  function SetTime(st: RState, cmd: string): Outcome {
    var times := Fields(cmd);
    if |times| < 3 || ParseNat(times[0], 10).None? || ParseNat(times[2], 10).None? then Bad(BadFormat, st) else Good(st)
  }

  function RecvMsg(st: RState, m: Msg): Outcome {
    if m.line == [] then Bad(UnknownCommand, st)
    else if m.line[0] == 'C' then RecvFile(st, m.line[1..], m.payload)
    else if m.line[0] == 'D' then RecvPushd(st, m.line[1..])
    else if m.line[0] == 'E' then RecvPopd(st)
    else if m.line[0] == 'T' then SetTime(st, m.line[1..])
    else Bad(UnknownCommand, st)
  }

  function RecvAll(st: RState, ms: seq<Msg>): Outcome
    decreases |ms|
  {
    if ms == [] then Good(st)
    else match RecvMsg(st, ms[0])
         case Bad(e, st') => Bad(e, st')
         case Good(st') => RecvAll(st', ms[1..])
  }

  lemma {:induction false} RecvAppend(st: RState, a: seq<Msg>, b: seq<Msg>)
    ensures RecvAll(st, a + b) ==
      match RecvAll(st, a) case Bad(e, st') => Bad(e, st') case Good(st') => RecvAll(st', b)
    decreases |a|
  {
    if a == [] {
      assert a + b == b;
    } else {
      assert (a + b)[1..] == a[1..] + b;
      match RecvMsg(st, a[0])
      case Bad(_, _) =>
      case Good(st') => RecvAppend(st', a[1..], b);
    }
  }

  lemma RecvOne(st: RState, m: Msg)
    ensures RecvAll(st, [m]) == RecvMsg(st, m)
  {
    hide RecvMsg;
    assert [m][1..] == [];
  }

  // Everything in the file system lies in a directory.
  ghost predicate Rooted(fs: FileSystem) {
    forall p :: p in fs ==> p == DirName(p) || IsDir(fs, DirName(p))
  }

  // Directories stay, and no file disappears or becomes a directory.
  ghost predicate KeepsNodes(fs: FileSystem, fs': FileSystem) {
    forall p :: p in fs ==> p in fs' && fs'[p].DirNode? == fs[p].DirNode?
  }

  lemma AddNodeKeepsTree(fs: FileSystem, p: string, n: Node)
    requires Rooted(fs) && IsDir(fs, DirName(p)) && (p in fs ==> n.DirNode? == fs[p].DirNode?)
    ensures Rooted(fs[p := n]) && KeepsNodes(fs, fs[p := n])
  {
  }

  ghost predicate KeepsTree(st: RState, st': RState) {
    Rooted(st'.fs) && KeepsNodes(st.fs, st'.fs)
  }

  lemma RecvFileKeepsTree(st: RState, cmd: string, payload: seq<Byte>)
    requires Rooted(st.fs)
    ensures KeepsTree(st, RecvFile(st, cmd, payload).st)
  {
    hide Rooted, KeepsNodes, Fields, DirName, ParseNat, Join;
    NothingLost(st.fs);
    var parts := Fields(cmd);
    if |parts| >= 3 && ParseNat(parts[1], 10).Some? {
      var size, p := ParseNat(parts[1], 10).value, Join(st.recvDir, parts[2]);
      if !IsDir(st.fs, p) && IsDir(st.fs, DirName(p)) {
        AddNodeKeepsTree(st.fs, p, FileNode(payload));
        if size <= |payload| {
          AddNodeKeepsTree(st.fs, p, FileNode(payload[..size]));
        }
      }
    }
  }

  lemma RecvPushdKeepsTree(st: RState, cmd: string)
    requires Rooted(st.fs)
    ensures KeepsTree(st, RecvPushd(st, cmd).st)
  {
    hide Rooted, KeepsNodes, Fields, DirName, ParseNat, Join;
    NothingLost(st.fs);
    var parts := Fields(cmd);
    if |parts| >= 3 {
      var p := Join(st.recvDir, parts[2]);
      if p !in st.fs && IsDir(st.fs, DirName(p)) {
        AddNodeKeepsTree(st.fs, p, DirNode);
      }
    }
  }

  lemma RecvMsgKeepsTree(st: RState, m: Msg)
    requires Rooted(st.fs)
    ensures KeepsTree(st, RecvMsg(st, m).st)
  {
    hide Rooted, KeepsNodes, RecvFile, RecvPushd, Split, Fields, ParseNat;
    NothingLost(st.fs);
    if m.line != [] {
      RecvFileKeepsTree(st, m.line[1..], m.payload);
      RecvPushdKeepsTree(st, m.line[1..]);
    }
  }

  lemma NothingLost(fs: FileSystem)
    ensures KeepsNodes(fs, fs)
  {
  }

  /** Whatever commands arrive, and wherever they fail: everything the receiver has lies in a
      directory, directories stay directories, and no path disappears. */
  lemma {:induction false} RecvKeepsTree(st: RState, ms: seq<Msg>)
    requires Rooted(st.fs)
    ensures KeepsTree(st, RecvAll(st, ms).st)
    decreases |ms|
  {
    if ms == [] {
      NothingLost(st.fs);
    } else {
      RecvMsgKeepsTree(st, ms[0]);
      hide Rooted, RecvMsg;
      if RecvMsg(st, ms[0]).Good? {
        RecvKeepsTree(RecvMsg(st, ms[0]).st, ms[1..]);
      }
    }
  }

  // --- single commands ---

  // Both sides agree on whether a shared path is a directory.
  ghost predicate Compatible(fs: FileSystem, g: FileSystem) {
    forall p :: p in fs && p in g ==> fs[p].DirNode? == g[p].DirNode?
  }

  lemma ReadPush(st: RState, mode: string, name: string)
    requires Mode(mode) && Name(name) && st.recvDir != []
    ensures RecvMsg(st, PushMsg(mode, name)) == RecvPushd(st, mode + " 0 " + name + "\n")
    ensures Fields(mode + " 0 " + name + "\n") == [mode, "0", name]
  {
    assert PushMsg(mode, name).line[1..] == mode + " 0 " + name + "\n";
    assert mode + " 0 " + name + "\n" == mode + " " + "0" + " " + name + "\n";
    ModeParses(mode);
    ThreeFields(mode, "0", name);
  }

  lemma PushEnters(st: RState, mode: string, name: string)
    requires Mode(mode) && Name(name) && Plain(st.recvDir) && IsDir(st.fs, st.recvDir)
    requires st.recvDir + "/" + name in st.fs ==> IsDir(st.fs, st.recvDir + "/" + name)
    ensures var q := st.recvDir + "/" + name;
      RecvMsg(st, PushMsg(mode, name)) == Good(RState(q, st.fs[q := DirNode]))
  {
    ReadPush(st, mode, name);
    ModeParses(mode);
    JoinChild(st.recvDir, name);
    SplitChild(st.recvDir, name);
    var q := st.recvDir + "/" + name;
    assert q in st.fs ==> st.fs[q := DirNode] == st.fs;
  }

  // The first n bytes, or all of them if there are fewer.
  function Upto(data: seq<Byte>, n: nat): (r: seq<Byte>)
    ensures r <= data && |r| == if n <= |data| then n else |data|
  {
    if n <= |data| then data[..n] else data
  }

  /** Whatever follows a file command: a directory of that name stays and the command fails;
      otherwise the file holds what has come of its bytes, also when they are cut short or the
      sender reports a failure behind them. */
  lemma FileOutcome(st: RState, mode: string, size: nat, name: string, payload: seq<Byte>)
    requires Mode(mode) && Name(name) && Plain(st.recvDir) && IsDir(st.fs, st.recvDir)
    ensures var q := st.recvDir + "/" + name;
      var r := RecvMsg(st, Msg("C" + mode + " " + Decimal(size) + " " + name + "\n", payload));
      if IsDir(st.fs, q) then r == Bad(IOError, st)
      else
        && r.st == st.(fs := st.fs[q := FileNode(Upto(payload, size))])
        && Error(r) == if |payload| < size then Some(Endless)
                       else if |payload| > size && payload[size] != 0 then Some(StatusError) else None
  {
    var cmd := mode + " " + Decimal(size) + " " + name + "\n";
    assert ("C" + cmd)[1..] == cmd;
    assert "C" + mode + " " + Decimal(size) + " " + name + "\n" == "C" + cmd;
    ModeParses(mode);
    DecimalRoundTrip(size);
    ThreeFields(mode, Decimal(size), name);
    JoinChild(st.recvDir, name);
    SplitChild(st.recvDir, name);
  }

  lemma FileStored(st: RState, f: File)
    requires Mode(f.mode) && Name(f.name) && Plain(st.recvDir) && IsDir(st.fs, st.recvDir)
    requires !IsDir(st.fs, st.recvDir + "/" + f.name)
    ensures RecvMsg(st, FileMsg(f)) == Good(st.(fs := st.fs[st.recvDir + "/" + f.name := FileNode(f.data)]))
  {
    FileOutcome(st, f.mode, |f.data|, f.name, f.data + [0]);
    assert Upto(f.data + [0], |f.data|) == f.data;
  }

  // --- the walk is in pre-order ---

  lemma {:induction false} PreOrderAppend(last: seq<string>, xs: seq<Visit>, ys: seq<Visit>)
    requires PreOrder(last, xs) && PreOrder(LastOf(last, xs), ys)
    ensures PreOrder(last, xs + ys) && LastOf(last, xs + ys) == LastOf(LastOf(last, xs), ys)
    decreases |xs|
  {
    if xs == [] {
      assert xs + ys == ys;
    } else {
      assert (xs + ys)[1..] == xs[1..] + ys;
      PreOrderAppend(xs[0].comps, xs[1..], ys);
    }
  }

  lemma {:induction false} TranscriptAppend(last: seq<string>, xs: seq<Visit>, ys: seq<Visit>)
    requires PreOrder(last, xs) && PreOrder(LastOf(last, xs), ys) && PreOrder(last, xs + ys)
    ensures Transcript(last, xs + ys) == Transcript(last, xs) + Transcript(LastOf(last, xs), ys)
    decreases |xs|
  {
    if xs == [] {
      assert xs + ys == ys;
    } else {
      var cs := xs[0].comps;
      assert (xs + ys)[1..] == xs[1..] + ys;
      TranscriptAppend(cs, xs[1..], ys);
      Assoc(VisitMsgs(last, xs[0]), Transcript(cs, xs[1..]), Transcript(LastOf(last, xs), ys));
    }
  }

  lemma Assoc<T>(a: seq<T>, b: seq<T>, c: seq<T>)
    ensures a + b + c == a + (b + c)
  {
  }

  lemma {:induction false} WalkPreOrder(last: seq<string>, cs: seq<string>, d: Dir)
    requires CanFollow(last, cs) && WellFormed(d)
    ensures PreOrder(last, Walk(cs, d)) && cs <= LastOf(last, Walk(cs, d))
    decreases d, 1
  {
    WalkSubsPreOrder(cs, cs, d.subs);
    assert Walk(cs, d)[1..] == WalkSubs(cs, d.subs);
  }

  lemma {:induction false} WalkSubsPreOrder(last: seq<string>, cs: seq<string>, subs: seq<Sub>)
    requires SubsOk(subs) && Names(last) && cs <= last
    requires forall s :: s in subs ==> !(cs + [s.name] <= last)
    ensures PreOrder(last, WalkSubs(cs, subs)) && cs <= LastOf(last, WalkSubs(cs, subs))
    decreases subs, 0
  {
    if subs != [] {
      var child := cs + [subs[0].name];
      assert subs[0] in subs && child[..|child| - 1] == cs;
      WalkPreOrder(last, child, subs[0].dir);
      var mid := LastOf(last, Walk(child, subs[0].dir));
      NamesOfLast(last, Walk(child, subs[0].dir));
      forall s | s in subs[1..] ensures !(cs + [s.name] <= mid) {
        assert child[|cs|] == mid[|cs|];
      }
      WalkSubsPreOrder(mid, cs, subs[1..]);
      PreOrderAppend(last, Walk(child, subs[0].dir), WalkSubs(cs, subs[1..]));
    }
  }

  lemma {:induction false} NamesOfLast(last: seq<string>, vs: seq<Visit>)
    requires PreOrder(last, vs) && Names(last)
    ensures Names(LastOf(last, vs))
    decreases |vs|
  {
    if vs != [] {
      NamesOfLast(vs[0].comps, vs[1..]);
    }
  }

  // --- receiving a transcript ---

  lemma {:induction false} PopsClimb(top: string, cs: seq<string>, fs: FileSystem, n: nat)
    requires Plain(top) && Names(cs) && n <= |cs|
    ensures RecvAll(RState(Under(top, cs), fs), Pops(n)) == Good(RState(Under(top, cs[..|cs| - n]), fs))
    decreases n
  {
    if n > 0 {
      SplitUnder(top, cs);
      PopsClimb(top, cs[..|cs| - 1], fs, n - 1);
      assert cs[..|cs| - 1][..|cs| - n] == cs[..|cs| - n];
      assert Pops(n)[1..] == Pops(n - 1);
    } else {
      assert cs[..|cs|] == cs;
    }
  }

  // Everything FlattenFiles and FlattenSubs mention lies below a child of q.
  lemma {:induction false} FilesBelow(q: string, fs: seq<File>, p: string) returns (n: string)
    requires p in FlattenFiles(q, fs)
    ensures p == q + "/" + n && (exists f :: f in fs && f.name == n) && !IsDir(FlattenFiles(q, fs), p)
  {
    if p in FlattenFiles(q, fs[1..]) {
      n := FilesBelow(q, fs[1..], p);
    } else {
      n := fs[0].name;
      assert fs[0] in fs;
    }
  }

  lemma {:induction false} DirBelow(q: string, d: Dir, p: string)
    requires p in Flatten(q, d)
    ensures Below(q, p)
    decreases d, 1
  {
    if p in FlattenSubs(q, d.subs) {
      var n := SubsBelow(q, d.subs, p);
    } else if p in FlattenFiles(q, d.files) {
      var n := FilesBelow(q, d.files, p);
    }
  }

  lemma {:induction false} SubsBelow(q: string, subs: seq<Sub>, p: string) returns (n: string)
    requires p in FlattenSubs(q, subs)
    ensures Below(q + "/" + n, p) && Below(q, p) && exists s :: s in subs && s.name == n
    decreases subs, 0
  {
    if p in FlattenSubs(q, subs[1..]) {
      n := SubsBelow(q, subs[1..], p);
    } else {
      n := subs[0].name;
      DirBelow(q + "/" + n, subs[0].dir, p);
      assert subs[0] in subs;
    }
  }

  lemma TopApart(q: string, d: Dir)
    requires WellFormed(d)
    ensures q !in FlattenFiles(q, d.files) && q !in FlattenSubs(q, d.subs)
    ensures FlattenFiles(q, d.files).Keys !! FlattenSubs(q, d.subs).Keys
  {
    forall p | p in FlattenSubs(q, d.subs) ensures p !in FlattenFiles(q, d.files) && p != q {
      var n := SubsBelow(q, d.subs, p);
      if p in FlattenFiles(q, d.files) {
        var m := FilesBelow(q, d.files, p);
        var s :| s in d.subs && s.name == n;
        SubNameOk(d.subs, s);
        SiblingsApart(q, m, n, p);
      }
    }
    if q in FlattenFiles(q, d.files) {
      var m := FilesBelow(q, d.files, q);
    }
  }

  lemma {:induction false} SubNameOk(subs: seq<Sub>, s: Sub)
    requires SubsOk(subs) && s in subs
    ensures Name(s.name)
    decreases |subs|
  {
    if s != subs[0] {
      SubNameOk(subs[1..], s);
    }
  }

  lemma FirstSubApart(q: string, subs: seq<Sub>)
    requires SubsOk(subs) && subs != []
    ensures var q0 := q + "/" + subs[0].name;
      Flatten(q0, subs[0].dir).Keys !! FlattenSubs(q, subs[1..]).Keys && q !in Flatten(q0, subs[0].dir)
  {
    var q0 := q + "/" + subs[0].name;
    forall p | p in Flatten(q0, subs[0].dir) ensures p !in FlattenSubs(q, subs[1..]) && p != q {
      DirBelow(q0, subs[0].dir, p);
      if p in FlattenSubs(q, subs[1..]) {
        var n := SubsBelow(q, subs[1..], p);
        var s :| s in subs[1..] && s.name == n;
        SubNameOk(subs[1..], s);
        SiblingsApart(q, subs[0].name, n, p);
      }
    }
  }

  lemma MergeAssoc(a: FileSystem, b: FileSystem, c: FileSystem)
    ensures a + b + c == a + (b + c)
  {
  }

  lemma MergeOne(a: FileSystem, p: string, v: Node, b: FileSystem)
    ensures a[p := v] + b == a + (map[p := v] + b)
  {
  }

  // What is compatible with the whole stays compatible as the parts are written.
  lemma FilesCompatible(fs: FileSystem, q: string, files: seq<File>)
    requires Compatible(fs, FlattenFiles(q, files)) && files != []
    ensures var p := q + "/" + files[0].name;
      !IsDir(fs, p) && Compatible(fs[p := FileNode(files[0].data)], FlattenFiles(q, files[1..]))
  {
    var p := q + "/" + files[0].name;
    assert p in FlattenFiles(q, files);
    var n := FilesBelow(q, files, p);
    var fs1 := fs[p := FileNode(files[0].data)];
    forall r | r in fs1 && r in FlattenFiles(q, files[1..])
      ensures fs1[r].DirNode? == FlattenFiles(q, files[1..])[r].DirNode?
    {
      var m := FilesBelow(q, files[1..], r);
    }
  }

  lemma DirCompatible(fs: FileSystem, q: string, d: Dir)
    requires WellFormed(d) && Compatible(fs, Flatten(q, d))
    ensures q in fs ==> IsDir(fs, q)
    ensures var fs1 := fs[q := DirNode];
      && Compatible(fs1, FlattenFiles(q, d.files))
      && Compatible(fs1 + FlattenFiles(q, d.files), FlattenSubs(q, d.subs))
      && IsDir(fs1 + FlattenFiles(q, d.files), q)
  {
    TopApart(q, d);
    assert Flatten(q, d)[q] == DirNode;
  }

  lemma SubsCompatible(fs: FileSystem, q: string, subs: seq<Sub>)
    requires SubsOk(subs) && subs != [] && Compatible(fs, FlattenSubs(q, subs)) && IsDir(fs, q)
    ensures var first := Flatten(q + "/" + subs[0].name, subs[0].dir);
      && Compatible(fs, first) && IsDir(fs + first, q)
      && Compatible(fs + first, FlattenSubs(q, subs[1..]))
  {
    FirstSubApart(q, subs);
  }

  lemma {:induction false} RecvFiles(st: RState, files: seq<File>)
    requires FilesOk(files) && Plain(st.recvDir) && IsDir(st.fs, st.recvDir)
    requires Compatible(st.fs, FlattenFiles(st.recvDir, files))
    ensures RecvAll(st, FileMsgs(files)) == Good(st.(fs := st.fs + FlattenFiles(st.recvDir, files)))
    decreases |files|
  {
    var q := st.recvDir;
    if files != [] {
      var f, p := files[0], q + "/" + files[0].name;
      assert f in files;
      FilesCompatible(st.fs, q, files);
      FileStored(st, f);
      RecvFiles(st.(fs := st.fs[p := FileNode(f.data)]), files[1..]);
      MergeOne(st.fs, p, FileNode(f.data), FlattenFiles(q, files[1..]));
    } else {
      assert st.fs + map[] == st.fs;
    }
  }

  // Pops up to the parent, then the push of the next directory.
  lemma EnterDir(top: string, last: seq<string>, cs: seq<string>, mode: string, fs: FileSystem)
    requires Plain(top) && CanFollow(last, cs) && Mode(mode)
    requires IsDir(fs, Under(top, cs[..|cs| - 1])) && (Under(top, cs) in fs ==> IsDir(fs, Under(top, cs)))
    ensures RecvAll(RState(Under(top, last), fs), Pops(|last| + 1 - |cs|) + [PushMsg(mode, cs[|cs| - 1])])
         == Good(RState(Under(top, cs), fs[Under(top, cs) := DirNode]))
  {
    hide RecvMsg, RecvAll;
    var parent, n, k := cs[..|cs| - 1], cs[|cs| - 1], |last| + 1 - |cs|;
    assert last[..|last| - k] == parent;
    PopsClimb(top, last, fs, k);
    RecvAppend(RState(Under(top, last), fs), Pops(k), [PushMsg(mode, n)]);
    UnderPlain(top, parent);
    assert n in cs;
    var st := RState(Under(top, parent), fs);
    PushEnters(st, mode, n);
    RecvOne(st, PushMsg(mode, n));
  }

  lemma {:induction false} RecvDir(top: string, last: seq<string>, cs: seq<string>, d: Dir, fs: FileSystem)
    requires Plain(top) && CanFollow(last, cs) && WellFormed(d) && PreOrder(last, Walk(cs, d))
    requires IsDir(fs, Under(top, cs[..|cs| - 1])) && Compatible(fs, Flatten(Under(top, cs), d))
    ensures RecvAll(RState(Under(top, last), fs), Transcript(last, Walk(cs, d)))
         == Good(RState(Under(top, LastOf(last, Walk(cs, d))), fs + Flatten(Under(top, cs), d)))
    decreases d, 1
  {
    var q, st0 := Under(top, cs), RState(Under(top, last), fs);
    TranscriptOfWalk(last, cs, d);
    DirCompatible(fs, q, d);
    EnterDir(top, last, cs, d.mode, fs);
    UnderPlain(top, cs);
    RecvContents(top, cs, d, fs[q := DirNode]);
    RecvTwice(st0, Pops(|last| + 1 - |cs|) + [PushMsg(d.mode, cs[|cs| - 1])], FileMsgs(d.files),
              Transcript(cs, WalkSubs(cs, d.subs)));
    MergeDir(fs, q, d);
  }

  lemma TranscriptOfWalk(last: seq<string>, cs: seq<string>, d: Dir)
    requires CanFollow(last, cs) && PreOrder(last, Walk(cs, d))
    ensures PreOrder(cs, WalkSubs(cs, d.subs))
    ensures Transcript(last, Walk(cs, d))
         == VisitMsgs(last, Visit(cs, d.mode, d.files)) + Transcript(cs, WalkSubs(cs, d.subs))
    ensures LastOf(last, Walk(cs, d)) == LastOf(cs, WalkSubs(cs, d.subs))
  {
    TranscriptStep(last, Visit(cs, d.mode, d.files), WalkSubs(cs, d.subs));
  }

  lemma TranscriptStep(last: seq<string>, v: Visit, vs: seq<Visit>)
    requires PreOrder(last, [v] + vs)
    ensures PreOrder(v.comps, vs) && v.comps != [] && |v.comps| <= |last| + 1
    ensures Transcript(last, [v] + vs) == VisitMsgs(last, v) + Transcript(v.comps, vs)
    ensures LastOf(last, [v] + vs) == LastOf(v.comps, vs)
  {
    assert ([v] + vs)[1..] == vs;
  }

  lemma RecvTwice(st: RState, a: seq<Msg>, b: seq<Msg>, c: seq<Msg>)
    requires RecvAll(st, a).Good? && RecvAll(RecvAll(st, a).st, b).Good?
    ensures RecvAll(st, a + b + c) == RecvAll(RecvAll(RecvAll(st, a).st, b).st, c)
  {
    RecvAppend(st, a + b, c);
    RecvAppend(st, a, b);
  }

  lemma MergeDir(fs: FileSystem, q: string, d: Dir)
    ensures fs[q := DirNode] + FlattenFiles(q, d.files) + FlattenSubs(q, d.subs) == fs + Flatten(q, d)
  {
    MergeOne(fs, q, DirNode, FlattenFiles(q, d.files));
    MergeAssoc(fs, map[q := DirNode] + FlattenFiles(q, d.files), FlattenSubs(q, d.subs));
  }

  // Once inside directory cs: its files, then its subdirectories.
  lemma {:induction false} RecvContents(top: string, cs: seq<string>, d: Dir, fs: FileSystem)
    requires Plain(top) && Names(cs) && WellFormed(d) && PreOrder(cs, WalkSubs(cs, d.subs))
    requires IsDir(fs, Under(top, cs)) && Compatible(fs, FlattenFiles(Under(top, cs), d.files))
    requires var fs2 := fs + FlattenFiles(Under(top, cs), d.files);
      Compatible(fs2, FlattenSubs(Under(top, cs), d.subs)) && IsDir(fs2, Under(top, cs))
    ensures var q := Under(top, cs);
      var fs2 := fs + FlattenFiles(q, d.files);
      && RecvAll(RState(q, fs), FileMsgs(d.files)) == Good(RState(q, fs2))
      && RecvAll(RState(q, fs2), Transcript(cs, WalkSubs(cs, d.subs)))
         == Good(RState(Under(top, LastOf(cs, WalkSubs(cs, d.subs))), fs2 + FlattenSubs(q, d.subs)))
    decreases d, 0
  {
    var q := Under(top, cs);
    UnderPlain(top, cs);
    RecvFiles(RState(q, fs), d.files);
    RecvSubs(top, cs, cs, d.subs, fs + FlattenFiles(q, d.files));
  }

  lemma {:induction false} RecvSubs(top: string, last: seq<string>, cs: seq<string>, subs: seq<Sub>, fs: FileSystem)
    requires Plain(top) && SubsOk(subs) && Names(last) && cs <= last
    requires forall s :: s in subs ==> !(cs + [s.name] <= last)
    requires PreOrder(last, WalkSubs(cs, subs))
    requires IsDir(fs, Under(top, cs)) && Compatible(fs, FlattenSubs(Under(top, cs), subs))
    ensures RecvAll(RState(Under(top, last), fs), Transcript(last, WalkSubs(cs, subs)))
         == Good(RState(Under(top, LastOf(last, WalkSubs(cs, subs))), fs + FlattenSubs(Under(top, cs), subs)))
    decreases subs, 0
  {
    var q := Under(top, cs);
    if subs == [] {
      assert fs + FlattenSubs(q, subs) == fs;
    } else {
      var child, sub := cs + [subs[0].name], subs[0].dir;
      var q0 := q + "/" + subs[0].name;
      var first, rest := Walk(child, sub), WalkSubs(cs, subs[1..]);
      assert subs[0] in subs && child[..|child| - 1] == cs;
      UnderChild(top, cs, subs[0].name);
      SubsCompatible(fs, q, subs);
      WalkPreOrder(last, child, sub);
      RecvDir(top, last, child, sub, fs);
      var mid, fs1 := LastOf(last, first), fs + Flatten(q0, sub);
      NamesOfLast(last, first);
      forall s | s in subs[1..] ensures !(cs + [s.name] <= mid) {
        assert child[|cs|] == mid[|cs|];
      }
      WalkSubsPreOrder(mid, cs, subs[1..]);
      RecvSubs(top, mid, cs, subs[1..], fs1);
      TranscriptAppend(last, first, rest);
      PreOrderAppend(last, first, rest);
      RecvAppend(RState(Under(top, last), fs), Transcript(last, first), Transcript(mid, rest));
      MergeAssoc(fs, Flatten(q0, sub), FlattenSubs(q, subs[1..]));
    }
  }

  // --- the whole transfer ---

  // What a recursive put of a base directory called name sends.
  ghost function PutTranscript(name: string, d: Dir): seq<Msg>
    requires PreOrder([], WalkSubs([], d.subs))
  {
    [PushMsg(d.mode, name)] + FileMsgs(d.files) + Transcript([], WalkSubs([], d.subs))
  }

  /** The receiver turns the commands of a recursive put into the same tree, whatever else
      its file system holds, unless a file stands where the tree has a directory or the
      other way round. */
  lemma PutRoundTrip(name: string, d: Dir, recvDir: string, fs: FileSystem)
    requires Name(name) && WellFormed(d) && Plain(recvDir) && IsDir(fs, recvDir)
    requires Compatible(fs, Flatten(recvDir + "/" + name, d))
    ensures PreOrder([], WalkSubs([], d.subs))
    ensures var top := recvDir + "/" + name;
      RecvAll(RState(recvDir, fs), PutTranscript(name, d))
      == Good(RState(Under(top, LastOf([], WalkSubs([], d.subs))), fs + Flatten(top, d)))
  {
    var top, st0 := recvDir + "/" + name, RState(recvDir, fs);
    WalkSubsPreOrder([], [], d.subs);
    DirCompatible(fs, top, d);
    PushEnters(st0, d.mode, name);
    assert [PushMsg(d.mode, name)][1..] == [];
    assert RecvAll(st0, [PushMsg(d.mode, name)]) == Good(RState(top, fs[top := DirNode]));
    RecvContents(top, [], d, fs[top := DirNode]);
    RecvTwice(st0, [PushMsg(d.mode, name)], FileMsgs(d.files), Transcript([], WalkSubs([], d.subs)));
    MergeDir(fs, top, d);
  }
}

/** SCPClient: the sending and the receiving side as they run. */
module ScpClient {
  import opened Options
  import opened PosixPath
  import opened ScpText
  import opened ScpProtocol

  lemma {:induction false} OneMorePop(n: nat)
    ensures Pops(n) + [POP] == Pops(n + 1)
  {
    if n > 0 {
      OneMorePop(n - 1);
      assert [POP] + Pops(n - 1) + [POP] == [POP] + (Pops(n - 1) + [POP]);
    }
  }

  lemma {:induction false} UnderUnder(base: string, p: seq<string>, f: seq<string>)
    ensures Under(base, p + f) == Under(Under(base, p), f)
  {
    if f == [] {
      assert p + f == p;
    } else {
      UnderUnder(base, p, f[..|f| - 1]);
      assert (p + f)[..|p + f| - 1] == p + f[..|f| - 1];
    }
  }

  lemma {:induction false} UnderLonger(base: string, cs: seq<string>)
    ensures |Under(base, cs)| >= |base| + |cs|
  {
    if cs != [] {
      UnderLonger(base, cs[..|cs| - 1]);
    }
  }

  // Where _chdir stops popping on the way from last to cs, and what it pops.
  lemma StepBetween(base: string, last: seq<string>, cs: seq<string>) returns (common: string, up: seq<string>)
    requires Plain(base) && CanFollow(last, cs)
    ensures Plain(common) && Names(up) && Under(base, last) == Under(common, up) && |up| == |last| + 1 - |cs|
    ensures DirName(CommonPrefix(Under(base, last) + "/", Under(base, cs) + "/")) == common
    ensures BaseName(Under(base, cs)) == cs[|cs| - 1] && Plain(Under(base, cs))
  {
    var p, n := cs[..|cs| - 1], cs[|cs| - 1];
    common, up := Under(base, p), last[|p|..];
    assert last == p + up && cs == p + [n];
    assert n in cs;
    CommonDir(base, p, up, n);
    UnderUnder(base, p, up);
    UnderPlain(base, p);
    UnderPlain(base, cs);
    SplitUnder(base, cs);
  }

  lemma Regroup4(a: seq<Msg>, m: Msg, b: seq<Msg>, c: seq<Msg>)
    ensures a + Pops(0) + [m] + b + c == a + ([m] + b + c)
  {
  }

  class Sender {
    const buffSize: nat
    var sent: seq<Msg>

    constructor (buffSize: nat)
      requires buffSize > 0
      ensures this.buffSize == buffSize && sent == []
    {
      this.buffSize, sent := buffSize, [];
    }

    method SendPopd()
      modifies this
      ensures sent == old(sent) + [POP]
    {
      sent := sent + [POP];
    }

    method SendPushd(directory: string, mode: string)
      modifies this
      ensures sent == old(sent) + [PushMsg(mode, BaseName(directory))]
    {
      var basename := BaseName(directory);
      sent := sent + [PushMsg(mode, basename)];
    }

    // Climb from fromDir to the directory above toDir, then enter toDir. The pop
    // loop ends because the common directory is an ancestor of fromDir: up names the
    // components between them.
    method Chdir(fromDir: string, toDir: string, mode: string, ghost common0: string, ghost up: seq<string>)
      requires Plain(common0) && Names(up) && fromDir == Under(common0, up)
      requires DirName(CommonPrefix(fromDir + "/", toDir + "/")) == common0
      modifies this
      ensures sent == old(sent) + Pops(|up|) + [PushMsg(mode, BaseName(toDir))]
    {
      var common := DirName(CommonPrefix(fromDir + "/", toDir + "/"));
      UnderPlain(common, up);
      var curDir := RStripSlashes(fromDir);
      ghost var k: nat := |up|;
      assert up[..k] == up;
      while curDir != common
        invariant k <= |up| && curDir == Under(common, up[..k])
        invariant sent == old(sent) + Pops(|up| - k)
        decreases k
      {
        assert up[..k] != [];
        SplitUnder(common, up[..k]);
        curDir := Split(curDir).0;
        SendPopd();
        OneMorePop(|up| - k);
        assert up[..k][..k - 1] == up[..k - 1];
        k := k - 1;
      }
      UnderLonger(common, up[..k]);
      SendPushd(toDir, mode);
    }

    // The bytes of one file, sent in pieces of at most buffSize, then the status byte.
    method SendData(data: seq<Byte>) returns (stream: seq<Byte>)
      requires buffSize > 0
      ensures stream == data + [0]
    {
      stream := [];
      var filePos := 0;
      while filePos < |data|
        invariant filePos <= |data| && stream == data[..filePos]
      {
        var next := if filePos + buffSize <= |data| then filePos + buffSize else |data|;
        stream := stream + data[filePos..next];
        filePos := next;
      }
      stream := stream + [0];
    }

    method SendFiles(root: string, files: seq<File>)
      requires buffSize > 0 && Plain(root) && FilesOk(files)
      modifies this
      ensures sent == old(sent) + FileMsgs(files)
    {
      var n := 0;
      while n < |files|
        invariant n <= |files|
        invariant sent + FileMsgs(files[n..]) == old(sent) + FileMsgs(files)
      {
        var f := files[n];
        assert f in files;
        JoinChild(root, f.name);
        SplitChild(root, f.name);
        var basename := BaseName(Join(root, f.name));
        var stream := SendData(f.data);
        var msg := Msg("C" + f.mode + " " + Decimal(|f.data|) + " " + basename + "\n", stream);
        assert files[n..][1..] == files[n + 1..];
        assert sent + FileMsgs(files[n..]) == sent + [msg] + FileMsgs(files[n + 1..]);
        sent := sent + [msg];
        n := n + 1;
      }
    }

    // put(base, recursive=True) for a directory base, whose contents os.walk reports as d.
    method SendRecursive(base: string, d: Dir)
      requires buffSize > 0 && Plain(base) && Name(BaseName(base)) && WellFormed(d)
      modifies this
      ensures PreOrder([], WalkSubs([], d.subs))
      ensures sent == old(sent) + PutTranscript(BaseName(base), d)
    {
      assert forall s :: s in d.subs ==> !([] + [s.name] <= []);
      WalkSubsPreOrder([], [], d.subs);
      var visits := Walk([], d);
      assert visits[0] == Visit([], d.mode, d.files) && visits[1..] == WalkSubs([], d.subs);
      CommonIsSelf(base);
      // The first step goes from the base to itself.
      Chdir(base, base, visits[0].mode, base, []);
      SendFiles(base, visits[0].files);
      SendVisits(base, visits[1..]);
      Regroup4(old(sent), PushMsg(d.mode, BaseName(base)), FileMsgs(d.files), Transcript([], WalkSubs([], d.subs)));
    }

    method SendVisits(base: string, visits: seq<Visit>)
      requires buffSize > 0 && Plain(base) && PreOrder([], visits)
      modifies this
      ensures sent == old(sent) + Transcript([], visits)
    {
      ghost var last: seq<string> := [];
      var lastDir := base;
      var n := 0;
      while n < |visits|
        invariant n <= |visits| && Names(last) && lastDir == Under(base, last)
        invariant PreOrder(last, visits[n..])
        invariant sent + Transcript(last, visits[n..]) == old(sent) + Transcript([], visits)
      {
        ghost var v, vs, sent0 := visits[n], visits[n + 1..], sent;
        assert visits[n..] == [v] + vs;
        TranscriptStep(last, v, vs);
        VisitOne(base, last, visits[n], lastDir);
        Assoc(sent0, VisitMsgs(last, v), Transcript(v.comps, vs));
        last, lastDir := visits[n].comps, Under(base, visits[n].comps);
        n := n + 1;
      }
      assert sent + [] == sent;
    }

    method VisitOne(base: string, ghost last: seq<string>, v: Visit, lastDir: string)
      requires buffSize > 0 && Plain(base) && CanFollow(last, v.comps) && FilesOk(v.files)
      requires lastDir == Under(base, last)
      modifies this
      ensures sent == old(sent) + VisitMsgs(last, v)
    {
      ghost var common, up := StepBetween(base, last, v.comps);
      var root := Under(base, v.comps);
      Chdir(lastDir, root, v.mode, common, up);
      SendFiles(root, v.files);
    }
  }

  class Receiver {
    const buffSize: nat
    var recvDir: string
    var fs: FileSystem

    constructor (buffSize: nat, recvDir: string, fs: FileSystem)
      requires buffSize > 0
      ensures this.buffSize == buffSize && this.recvDir == recvDir && this.fs == fs
    {
      this.buffSize, this.recvDir, this.fs := buffSize, recvDir, fs;
    }

    function State(): RState
      reads this
    {
      RState(recvDir, fs)
    }

    // Read exactly size bytes, however the channel chunks them, and leave the rest,
    // starting with the status byte, unread. A stream that is too short is read to its end.
    method RecvData(stream: seq<Byte>, size: nat) returns (data: seq<Byte>, rest: seq<Byte>)
      requires buffSize > 0
      ensures data + rest == stream && |data| == if size <= |stream| then size else |stream|
    {
      var buff := buffSize;
      data, rest := [], stream;
      var pos := 0;
      while pos < size && rest != []
        invariant pos <= size && pos <= |stream| && 0 < buff && data == stream[..pos] && rest == stream[pos..]
        decreases size - pos
      {
        // Never ask for more than the file still has.
        if size - pos <= buff {
          buff := size - pos;
        }
        // recv returns between one and buff bytes.
        var got: nat :| 1 <= got <= buff && got <= |rest|;
        data, rest := data + rest[..got], rest[got..];
        pos := pos + got;
      }
    }

    method RecvFileCmd(cmd: string, payload: seq<Byte>) returns (err: Option<Failure>)
      requires buffSize > 0
      modifies this`fs
      ensures State() == RecvFile(old(State()), cmd, payload).st
      ensures err == Error(RecvFile(old(State()), cmd, payload))
    {
      var parts := Fields(cmd);
      if |parts| < 3 || ParseNat(parts[0], 8).None? || ParseNat(parts[1], 10).None? {
        return Some(BadFormat);
      }
      var size := ParseNat(parts[1], 10).value;
      var path := Join(recvDir, parts[2]);
      if IsDir(fs, path) || !IsDir(fs, DirName(path)) {
        return Some(IOError);
      }
      var data, rest := RecvData(payload, size);
      assert payload[..|data|] == data && payload[..|payload|] == payload;
      fs := fs[path := FileNode(data)];
      if |data| < size {
        return Some(Endless);
      }
      if rest != [] && rest[0] != 0 {
        return Some(StatusError);
      }
      err := None;
    }

    method RecvPushdCmd(cmd: string) returns (err: Option<Failure>)
      modifies this
      ensures State() == RecvPushd(old(State()), cmd).st
      ensures err == Error(RecvPushd(old(State()), cmd))
    {
      var parts := Fields(cmd);
      if |parts| < 3 || ParseNat(parts[0], 8).None? {
        return Some(BadFormat);
      }
      var path := Join(recvDir, parts[2]);
      if path !in fs {
        if !IsDir(fs, DirName(path)) {
          return Some(IOError);
        }
        fs := fs[path := DirNode];
      } else if !IsDir(fs, path) {
        return Some(NotADirectory);
      }
      recvDir := path;
      err := None;
    }

    // Interpret commands until the channel closes or one of them fails.
    method RecvAllCmds(ms: seq<Msg>) returns (err: Option<Failure>)
      requires buffSize > 0
      modifies this
      ensures State() == RecvAll(old(State()), ms).st
      ensures err == Error(RecvAll(old(State()), ms))
      ensures Rooted(old(fs)) ==> Rooted(fs) && KeepsNodes(old(fs), fs)
    {
      if Rooted(fs) {
        RecvKeepsTree(State(), ms);
      }
      var n := 0;
      while n < |ms|
        invariant n <= |ms| && RecvAll(old(State()), ms) == RecvAll(State(), ms[n..])
      {
        var line := ms[n].line;
        if line == [] {
          return Some(UnknownCommand);
        }
        if line[0] == 'C' {
          err := RecvFileCmd(line[1..], ms[n].payload);
        } else if line[0] == 'D' {
          err := RecvPushdCmd(line[1..]);
        } else if line[0] == 'E' {
          recvDir := Split(recvDir).0;
          err := None;
        } else if line[0] == 'T' {
          err := Error(SetTime(State(), line[1..]));
        } else {
          return Some(UnknownCommand);
        }
        if err.Some? {
          return;
        }
        assert ms[n..][1..] == ms[n + 1..];
        n := n + 1;
      }
      err := None;
    }
  }

  /** A sender and a receiver joined end to end reproduce the tree below the receive directory. */
  method Transfer(base: string, d: Dir, sendBuff: nat, recvBuff: nat, recvDir: string, fs: FileSystem)
    returns (err: Option<Failure>, result: FileSystem)
    requires sendBuff > 0 && recvBuff > 0 && Plain(base) && Name(BaseName(base)) && WellFormed(d)
    requires Plain(recvDir) && IsDir(fs, recvDir) && Compatible(fs, Flatten(recvDir + "/" + BaseName(base), d))
    ensures err.None? && result == fs + Flatten(recvDir + "/" + BaseName(base), d)
  {
    var sender := new Sender(sendBuff);
    sender.SendRecursive(base, d);
    assert sender.sent == PutTranscript(BaseName(base), d);
    var receiver := new Receiver(recvBuff, recvDir, fs);
    assert receiver.State() == RState(recvDir, fs);
    PutRoundTrip(BaseName(base), d, recvDir, fs);
    err := receiver.RecvAllCmds(sender.sent);
    result := receiver.fs;
  }
}

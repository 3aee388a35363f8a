/** The label map: its two file formats, its loaders, and its reload while
    messages are being labelled. */
module LabelMap {
  import opened Options

  type Labels = map<string, seq<string>>

  /** One line of a label file. */
  datatype Entry = Entry(ip: string, nid: string, pid: string)

  // ---------- What a loaded file means ----------

  ghost predicate IsLastOf(entries: seq<Entry>, i: nat, ip: string) {
    && i < |entries| && entries[i].ip == ip
    && forall j :: i < j < |entries| ==> entries[j].ip != ip
  }

  /** Every address of the file, with the two texts of its last line. */
  ghost predicate MapsFile(m: Labels, entries: seq<Entry>) {
    && (forall ip :: ip in m <==> exists i :: 0 <= i < |entries| && entries[i].ip == ip)
    && (forall i: nat, ip :: IsLastOf(entries, i, ip) ==> ip in m && m[ip] == [entries[i].nid, entries[i].pid])
  }

  /** The assignments of the loading loop. */
  function Loaded(entries: seq<Entry>): Labels {
    if entries == [] then map[]
    else
      var e := entries[|entries| - 1];
      Loaded(entries[..|entries| - 1])[e.ip := [e.nid, e.pid]]
  }

  /** Later lines win, and nothing else is in the map. */
  lemma {:induction false} LastLineWins(entries: seq<Entry>)
    ensures MapsFile(Loaded(entries), entries)
    decreases |entries|
  {
    if entries != [] {
      var n := |entries| - 1;
      var front := entries[..n];
      LastLineWins(front);
      var m := Loaded(entries);
      forall ip
        ensures ip in m <==> exists i :: 0 <= i < |entries| && entries[i].ip == ip
      {
        if i :| 0 <= i < |front| && front[i].ip == ip {
          assert entries[i].ip == ip;
        }
        if ip == entries[n].ip {
          assert entries[n].ip == ip;
        }
      }
      forall i: nat, ip | IsLastOf(entries, i, ip)
        ensures ip in m && m[ip] == [entries[i].nid, entries[i].pid]
      {
        if i < n {
          assert entries[n].ip != ip;
          assert IsLastOf(front, i, ip);
        }
      }
    }
  }

  lemma {:induction false} LastExists(entries: seq<Entry>, k: nat) returns (i: nat)
    requires k < |entries|
    ensures IsLastOf(entries, i, entries[k].ip)
    decreases |entries| - k
  {
    if j :| k < j < |entries| && entries[j].ip == entries[k].ip {
      i := LastExists(entries, j);
    } else {
      i := k;
    }
  }

  /** The meaning of a file determines its map. */
  lemma OneMapPerFile(m: Labels, n: Labels, entries: seq<Entry>)
    requires MapsFile(m, entries) && MapsFile(n, entries)
    ensures m == n
  {
    forall ip | ip in m
      ensures ip in n && m[ip] == n[ip]
    {
      var k :| 0 <= k < |entries| && entries[k].ip == ip;
      var i := LastExists(entries, k);
    }
  }

  // ---------- Splitting text ----------

  function IndexOf(s: string, c: char): (at: Option<nat>)
    ensures at.Some? ==> at.value < |s| && s[at.value] == c && forall i :: 0 <= i < at.value ==> s[i] != c
    ensures at.None? ==> c !in s
  {
    if s == "" then None
    else if s[0] == c then Some(0)
    else
      var rest := IndexOf(s[1..], c);
      if rest.None? then None else Some(rest.value + 1)
  }

  function LastIndexOf(s: string, c: char): (at: Option<nat>)
    ensures at.Some? ==> at.value < |s| && s[at.value] == c && forall i :: at.value < i < |s| ==> s[i] != c
    ensures at.None? ==> c !in s
  {
    if s == "" then None
    else if s[|s| - 1] == c then Some(|s| - 1)
    else LastIndexOf(s[..|s| - 1], c)
  }

  lemma IndexIs(a: string, c: char, b: string)
    requires c !in a
    ensures IndexOf(a + [c] + b, c) == Some(|a|)
  {
    var s := a + [c] + b;
    assert s[|a|] == c && forall i :: 0 <= i < |a| ==> s[i] == a[i];
    assert c in s;
  }

  lemma {:induction false} LastIndexIs(a: string, c: char, b: string)
    requires c !in b
    ensures LastIndexOf(a + [c] + b, c) == Some(|a|)
    decreases |b|
  {
    var s := a + [c] + b;
    if b != "" {
      var front := b[..|b| - 1];
      assert b[|b| - 1] in b && forall x :: x in front ==> x in b;
      assert s[|s| - 1] == b[|b| - 1];
      assert s[..|s| - 1] == a + [c] + front;
      LastIndexIs(a, c, front);
    }
  }

  /** The text between the delimiters; always at least one piece. */
  function Pieces(s: string, c: char): (ps: seq<string>)
    ensures ps != []
    decreases |s|
  {
    match IndexOf(s, c)
    case None => [s]
    case Some(at) => [s[..at]] + Pieces(s[at + 1..], c)
  }

  lemma PiecesFront(a: string, c: char, b: string)
    requires c !in a
    ensures Pieces(a + [c] + b, c) == [a] + Pieces(b, c)
  {
    IndexIs(a, c, b);
    var s := a + [c] + b;
    assert s[..|a|] == a && s[|a| + 1..] == b;
  }

  function Joined(ps: seq<string>, c: char): string
    requires ps != []
  {
    if |ps| == 1 then ps[0] else ps[0] + [c] + Joined(ps[1..], c)
  }

  /** The pieces hold no delimiter, and joined by it they are the text. */
  lemma {:induction false} PiecesAreExact(s: string, c: char)
    ensures Joined(Pieces(s, c), c) == s
    ensures forall i :: 0 <= i < |Pieces(s, c)| ==> c !in Pieces(s, c)[i]
    decreases |s|
  {
    match IndexOf(s, c) {
      case None =>
      case Some(at) =>
        var ps := Pieces(s, c);
        assert s == s[..at] + [c] + s[at + 1..];
        PiecesAreExact(s[at + 1..], c);
        assert ps[1..] == Pieces(s[at + 1..], c);
        forall i | 0 <= i < |ps|
          ensures c !in ps[i]
        {
          assert i > 0 ==> ps[i] == ps[1..][i - 1];
        }
    }
  }

  /** A delimiter and text without one add one piece at the end. */
  lemma {:induction false} OneMorePiece(s: string, c: char, last: string)
    requires c !in last
    ensures Pieces(s + [c] + last, c) == Pieces(s, c) + [last]
    decreases |s|
  {
    hide IndexOf;
    match IndexOf(s, c) {
      case None =>
        PiecesFront(s, c, last);
        OnePiece(last, c);
      case Some(at) =>
        var rest := s[at + 1..];
        assert s == s[..at] + [c] + rest;
        assert s + [c] + last == s[..at] + [c] + (rest + [c] + last);
        PiecesFront(s[..at], c, rest);
        PiecesFront(s[..at], c, rest + [c] + last);
        OneMorePiece(rest, c, last);
    }
  }

  // ---------- The pre-tag-map format ----------

  /** What follows the first '=' of a field. */
  function AfterEquals(field: string): string {
    match IndexOf(field, '=')
    case Some(at) => field[at + 1..]
    case None => field
  }

  /** The address: from the first '=' to the last '/', or to the end where that
      slash is missing or comes earlier (the unsigned length then wraps). */
  function Address(field: string): string {
    var start := match IndexOf(field, '=') case Some(at) => at + 1 case None => 0;
    match LastIndexOf(field, '/')
    case Some(stop) => if start <= stop then field[start..stop] else field[start..]
    case None => field[start..]
  }

  /** The text between the first and the second '%' of a label, if there is one. */
  function NodeIds(tags: string): seq<string> {
    var ps := Pieces(tags, '%');
    if |ps| > 2 then [ps[1]] else []
  }

  /** The text behind the last '%' of a label. */
  function PlatformId(tags: string): string {
    var ps := Pieces(tags, '%');
    ps[|ps| - 1]
  }

  /** The token loop: erases the label piece by piece, keeps the second piece and
      what is left in the end. */
  method Tokenize(tags: string, nids: seq<string>) returns (nids': seq<string>, pid: string)
    ensures var ps := Pieces(tags, '%');
      nids' == nids + (if |ps| > 2 then [ps[1]] else []) && pid == ps[|ps| - 1]
  {
    ghost var ps := Pieces(tags, '%');
    var rest := tags;
    var counter := 0;
    nids' := nids;
    while IndexOf(rest, '%').Some?
      invariant counter < |ps| && Pieces(rest, '%') == ps[counter..]
      invariant nids' == nids + if counter > 1 then [ps[1]] else []
      decreases |rest|
    {
      var pos := IndexOf(rest, '%').value;
      var token := rest[..pos];
      assert Pieces(rest, '%') == [token] + Pieces(rest[pos + 1..], '%');
      assert token == ps[counter];
      if counter == 1 {
        nids' := nids' + [token];
      }
      rest := rest[pos + 1..];
      counter := counter + 1;
      assert ps[counter - 1..][1..] == ps[counter..];
    }
    pid := rest;
    assert Pieces(rest, '%') == [rest];
    assert |ps[counter..]| == 1;
  }

  // ---------- The loaders ----------

  class Holder {
    var labels: Labels

    constructor ()
      ensures labels == map[]
    {
      labels := map[];
    }

    /** The loop both loaders end with. */
    method Fill(ips: seq<string>, nids: seq<string>, pids: seq<string>)
      requires |ips| == |nids| == |pids| && labels == map[]
      modifies this
      ensures labels == Loaded(Entries(ips, nids, pids)) && MapsFile(labels, Entries(ips, nids, pids))
    {
      ghost var entries := Entries(ips, nids, pids);
      assert entries[..0] == [];
      for i := 0 to |ips|
        invariant labels == Loaded(entries[..i])
      {
        assert entries[..i + 1][..i] == entries[..i];
        labels := labels[ips[i] := [nids[i], pids[i]]];
      }
      assert entries[..|ips|] == entries;
      LastLineWins(entries);
    }

    /** CSV rows: address, node and platform; false where a row is too short,
        on which the process exits. */
    method LoadLabelMap(rows: seq<seq<string>>) returns (ok: bool)
      modifies this
      ensures ok <==> forall i :: 0 <= i < |rows| ==> |rows[i]| >= 3
      ensures ok ==> MapsFile(labels, CsvEntries(rows))
    {
      labels := map[];
      if exists i :: 0 <= i < |rows| && |rows[i]| < 3 {
        return false;
      }
      var ips := seq(|rows|, i requires 0 <= i < |rows| => rows[i][0]);
      var nids := seq(|rows|, i requires 0 <= i < |rows| => rows[i][1]);
      var pids := seq(|rows|, i requires 0 <= i < |rows| => rows[i][2]);
      Fill(ips, nids, pids);
      assert Entries(ips, nids, pids) == CsvEntries(rows);
      ok := true;
    }

    /** Pre-tag-map rows: a label and an address. The node column is as long as
        the others only if every label has two '%'. */
    method LoadLabelMapPreTagStyle(rows: seq<(string, string)>)
      requires forall i :: 0 <= i < |rows| ==> HasTwoDelimiters(rows[i].0)
      modifies this
      ensures MapsFile(labels, PtmEntries(rows))
    {
      hide Address, AfterEquals, HasTwoDelimiters, Pieces, MapsFile, Loaded;
      labels := map[];
      var ips: seq<string>, nids: seq<string>, pids: seq<string> := [], [], [];
      for i := 0 to |rows|
        invariant labels == map[] && |ips| == |nids| == |pids| == i
        invariant Entries(ips, nids, pids) == PtmEntries(rows)[..i]
      {
        ips := ips + [Address(rows[i].1)];
        NodeIdCount(rows[i].0);
        var pid;
        nids, pid := Tokenize(AfterEquals(rows[i].0), nids);
        pids := pids + [pid];
        assert Entries(ips, nids, pids)[i] == PtmEntries(rows)[i];
      }
      Fill(ips, nids, pids);
      assert PtmEntries(rows)[..|rows|] == PtmEntries(rows);
    }
  }

  function Entries(ips: seq<string>, nids: seq<string>, pids: seq<string>): (r: seq<Entry>)
    requires |ips| == |nids| == |pids|
    ensures |r| == |ips| && forall i :: 0 <= i < |ips| ==> r[i] == Entry(ips[i], nids[i], pids[i])
  {
    seq(|ips|, i requires 0 <= i < |ips| => Entry(ips[i], nids[i], pids[i]))
  }

  function CsvEntries(rows: seq<seq<string>>): (r: seq<Entry>)
    requires forall i :: 0 <= i < |rows| ==> |rows[i]| >= 3
    ensures |r| == |rows| && forall i :: 0 <= i < |rows| ==> r[i] == Entry(rows[i][0], rows[i][1], rows[i][2])
  {
    seq(|rows|, i requires 0 <= i < |rows| => Entry(rows[i][0], rows[i][1], rows[i][2]))
  }

  predicate HasTwoDelimiters(field: string) {
    |Pieces(AfterEquals(field), '%')| >= 3
  }

  /** The node column as the token loops of all labels build it. */
  function NodeColumn(fields: seq<string>): seq<string> {
    if fields == [] then []
    else NodeColumn(fields[..|fields| - 1]) + NodeIds(AfterEquals(fields[|fields| - 1]))
  }

  ghost predicate AllHaveTwoDelimiters(fields: seq<string>) {
    forall i :: 0 <= i < |fields| ==> HasTwoDelimiters(fields[i])
  }

  lemma AllOfFrontAndLast(fields: seq<string>)
    requires fields != []
    ensures var n := |fields| - 1;
      AllHaveTwoDelimiters(fields) <==> AllHaveTwoDelimiters(fields[..n]) && HasTwoDelimiters(fields[n])
  {
    hide HasTwoDelimiters;
    var n := |fields| - 1;
    assert forall i :: 0 <= i < n ==> fields[..n][i] == fields[i];
  }

  /** The node column has an entry for every row exactly when every label has two
      delimiters; otherwise the final loop would index past its end. */
  lemma {:induction false} NodeColumnIsComplete(fields: seq<string>)
    ensures |NodeColumn(fields)| <= |fields|
    ensures |NodeColumn(fields)| == |fields| <==> AllHaveTwoDelimiters(fields)
    decreases |fields|
  {
    hide NodeIds, AfterEquals, HasTwoDelimiters;
    if fields != [] {
      hide AllHaveTwoDelimiters;
      var n := |fields| - 1;
      NodeColumnIsComplete(fields[..n]);
      AllOfFrontAndLast(fields);
      NodeIdCount(fields[n]);
    }
  }

  lemma NodeIdCount(field: string)
    ensures |NodeIds(AfterEquals(field))| == if HasTwoDelimiters(field) then 1 else 0
  {
  }

  function PtmEntry(field: string, address: string): Entry
    requires HasTwoDelimiters(field)
  {
    Entry(Address(address), NodeIds(AfterEquals(field))[0], PlatformId(AfterEquals(field)))
  }

  function PtmEntries(rows: seq<(string, string)>): (r: seq<Entry>)
    requires forall i :: 0 <= i < |rows| ==> HasTwoDelimiters(rows[i].0)
    ensures |r| == |rows| && forall i :: 0 <= i < |rows| ==> r[i] == PtmEntry(rows[i].0, rows[i].1)
  {
    seq(|rows|, i requires 0 <= i < |rows| => PtmEntry(rows[i].0, rows[i].1))
  }

  const SET_LABEL := "set_label"
  const NKEY := "nkey"
  const PKEY := "pkey"
  const IP := "ip"

  /** The documented line: set_label=nkey%NODE%pkey%PLATFORM ip=ADDRESS/MASK. */
  function LabelField(nid: string, pid: string): string {
    SET_LABEL + ['='] + LabelBody(nid, pid)
  }

  function LabelBody(nid: string, pid: string): string {
    NKEY + ['%'] + (nid + ['%'] + (PKEY + ['%'] + pid))
  }

  function AddressField(ip: string, mask: string): string {
    IP + ['='] + (ip + ['/'] + mask)
  }

  lemma OnePiece(s: string, c: char)
    requires c !in s
    ensures Pieces(s, c) == [s]
  {
  }

  lemma NoIndex(s: string, c: char)
    requires c !in s
    ensures IndexOf(s, c) == None
  {
    hide IndexOf;
    assert forall i :: 0 <= i < |s| ==> s[i] in s;
  }

  /** A field without '=' is its own text; otherwise what follows the first one. */
  lemma AfterEqualsIs(name: string, text: string)
    requires '=' !in name
    ensures AfterEquals(name + ['='] + text) == text && AfterEquals(name) == name
  {
    hide IndexOf;
    IndexIs(name, '=', text);
    NoIndex(name, '=');
    assert (name + ['='] + text)[|name| + 1..] == text;
  }

  /** The address of a field reaches up to the last '/' behind the first '='. */
  lemma AddressIs(field: string, ip: string, mask: string)
    requires '/' !in mask && AfterEquals(field) == ip + ['/'] + mask
    ensures Address(field) == ip
  {
    hide IndexOf, LastIndexOf;
    var start := match IndexOf(field, '=') case Some(at) => at + 1 case None => 0;
    var front := field[..start];
    assert field == front + (ip + ['/'] + mask);
    assert field == front + ip + ['/'] + mask;
    LastIndexIs(front + ip, '/', mask);
    assert field[start..|front + ip|] == ip;
  }

  /** Where there is none, it is all of the text. */
  lemma AddressIsAll(field: string)
    requires '/' !in AfterEquals(field)
    ensures Address(field) == AfterEquals(field)
  {
    hide IndexOf, LastIndexOf;
    var start := match IndexOf(field, '=') case Some(at) => at + 1 case None => 0;
    assert AfterEquals(field) == field[start..];
    assert forall k :: start <= k < |field| ==> field[k] == field[start..][k - start];
  }

  /** Any line with two delimiters or more: the node is the text between the first
      two, the platform the text behind the last. */
  lemma LineIsRead(name: string, first: string, nid: string, more: string, pid: string,
                   address: string, ip: string, mask: string)
    requires '=' !in name && '%' !in first && '%' !in nid && '%' !in pid
    requires more == "" || more[0] == '%'
    requires '/' !in mask && AfterEquals(address) == ip + ['/'] + mask
    ensures var field := name + ['='] + (first + ['%'] + (nid + more + ['%'] + pid));
      HasTwoDelimiters(field) && PtmEntry(field, address) == Entry(ip, nid, pid)
  {
    hide Pieces, AfterEquals, Address;
    var tags := first + ['%'] + (nid + more + ['%'] + pid);
    AfterEqualsIs(name, tags);
    AddressIs(address, ip, mask);
    PiecesFront(first, '%', nid + more + ['%'] + pid);
    OneMorePiece(nid + more, '%', pid);
    if more == "" {
      assert nid + more == nid;
      OnePiece(nid, '%');
    } else {
      assert nid + more == nid + ['%'] + more[1..];
      PiecesFront(nid, '%', more[1..]);
    }
    assert Pieces(nid + more, '%')[0] == nid;
  }

  /** A line in the documented format yields its node, platform and address. */
  lemma DocumentedLineIsRead(ip: string, mask: string, nid: string, pid: string)
    requires '%' !in nid && '%' !in pid && '/' !in mask
    ensures HasTwoDelimiters(LabelField(nid, pid))
    ensures PtmEntry(LabelField(nid, pid), AddressField(ip, mask)) == Entry(ip, nid, pid)
  {
    hide Pieces, AfterEquals, Address, HasTwoDelimiters, PtmEntry;
    var address := AddressField(ip, mask);
    assert IP + ['='] + (ip + ['/'] + mask) == address;
    AfterEqualsIs(IP, ip + ['/'] + mask);
    var tags := NKEY + ['%'] + (nid + (['%'] + PKEY) + ['%'] + pid);
    assert nid + (['%'] + PKEY) + ['%'] + pid == nid + ['%'] + (PKEY + ['%'] + pid);
    LineIsRead(SET_LABEL, NKEY, nid, ['%'] + PKEY, pid, address, ip, mask);
  }

  // ---------- Reloading while messages are labelled ----------

  /** The reloading thread: it clears the map, then assigns line after line. */
  datatype Writer = Outside | Locked(files: seq<seq<Entry>>) | Filling(file: seq<Entry>, n: nat, rest: seq<seq<Entry>>)

  /** `loads` are the files loaded so far; a reader remembers the map it saw when
      it took the shared lock; `seen` is what lookups have observed. */
  datatype World = World(
    labels: Labels,
    writer: Writer,
    readers: map<nat, Labels>,
    loads: seq<seq<Entry>>,
    seen: seq<(nat, Labels, Labels)>)

  datatype Event =
    | LockExclusive(files: seq<seq<Entry>>)
    | Clear
    | Assign
    | UnlockExclusive
    | LockShared(reader: nat)
    | Look(reader: nat)
    | UnlockShared(reader: nat)

  /** The shared mutex: one exclusive holder, or any number of shared ones. */
  predicate Enabled(w: World, e: Event) {
    match e
    case LockExclusive(_) => w.writer == Outside && w.readers == map[]
    case Clear => (w.writer.Locked? && w.writer.files != []) ||
      (w.writer.Filling? && w.writer.n == |w.writer.file| && w.writer.rest != [])
    case Assign => w.writer.Filling? && w.writer.n < |w.writer.file|
    case UnlockExclusive =>
      (w.writer.Locked? && w.writer.files == []) ||
      (w.writer.Filling? && w.writer.n == |w.writer.file| && w.writer.rest == [])
    case LockShared(r) => w.writer == Outside && r !in w.readers
    case Look(r) => r in w.readers
    case UnlockShared(r) => r in w.readers
  }

  function Step(w: World, e: Event): World
    requires Enabled(w, e)
  {
    match e
    case LockExclusive(files) => w.(writer := Locked(files))
    case Clear =>
      var files := if w.writer.Locked? then w.writer.files else w.writer.rest;
      w.(labels := map[], writer := Filling(files[0], 0, files[1..]))
    case Assign =>
      var line := w.writer.file[w.writer.n];
      w.(labels := w.labels[line.ip := [line.nid, line.pid]], writer := w.writer.(n := w.writer.n + 1))
    case UnlockExclusive =>
      w.(writer := Outside, loads := if w.writer.Filling? then w.loads + [w.writer.file] else w.loads)
    case LockShared(r) => w.(readers := w.readers[r := w.labels])
    case Look(r) => w.(seen := w.seen + [(r, w.readers[r], w.labels)])
    case UnlockShared(r) => w.(readers := w.readers - {r})
  }

  /** Before the threads start the file of the enabled loader has been loaded. */
  function Started(file: seq<Entry>): World {
    World(Loaded(file), Outside, map[], [file], [])
  }

  ghost predicate IsWhole(m: Labels, loads: seq<seq<Entry>>) {
    exists i :: 0 <= i < |loads| && MapsFile(m, loads[i])
  }

  ghost predicate Inv(w: World) {
    && w.loads != []
    && (w.writer.Outside? || w.writer.Locked? ==> MapsFile(w.labels, w.loads[|w.loads| - 1]))
    && (w.writer.Filling? ==> w.writer.n <= |w.writer.file| && w.labels == Loaded(w.writer.file[..w.writer.n]))
    && (w.readers != map[] ==> w.writer == Outside)
    && (forall r :: r in w.readers ==> w.readers[r] == w.labels)
    && (forall i :: 0 <= i < |w.seen| ==> w.seen[i].1 == w.seen[i].2 && IsWhole(w.seen[i].2, w.loads))
  }

  lemma WholeStays(m: Labels, loads: seq<seq<Entry>>, more: seq<seq<Entry>>)
    requires IsWhole(m, loads)
    ensures IsWhole(m, loads + more)
  {
    var i :| 0 <= i < |loads| && MapsFile(m, loads[i]);
    assert (loads + more)[i] == loads[i];
  }

  lemma StepKeepsInv(w: World, e: Event)
    requires Inv(w) && Enabled(w, e)
    ensures Inv(Step(w, e))
  {
    hide MapsFile, IsWhole;
    var w' := Step(w, e);
    match e {
      case Assign =>
        var file, n := w.writer.file, w.writer.n;
        assert file[..n + 1][..n] == file[..n];
      case UnlockExclusive =>
        if w.writer.Filling? {
          assert w.writer.file[..|w.writer.file|] == w.writer.file;
          LastLineWins(w.writer.file);
          forall i | 0 <= i < |w.seen|
            ensures IsWhole(w.seen[i].2, w'.loads)
          {
            WholeStays(w.seen[i].2, w.loads, [w.writer.file]);
          }
        }
      case Look(r) => LastIsWhole(w);
      case _ =>
    }
  }

  lemma LastIsWhole(w: World)
    requires w.loads != [] && MapsFile(w.labels, w.loads[|w.loads| - 1])
    ensures IsWhole(w.labels, w.loads)
  {
  }

  function Run(file: seq<Entry>, es: seq<Event>): Option<World> {
    if es == [] then Some(Started(file))
    else
      var n := |es| - 1;
      var before := Run(file, es[..n]);
      if before == None || !Enabled(before.value, es[n]) then None else Some(Step(before.value, es[n]))
  }

  /** Over every interleaving of readers and reloads, whatever one lookup sees is
      the complete map of one whole file, never a cleared or half-filled one,
      and it is the map the reader's lock was taken on. */
  lemma {:induction false} ReadersSeeWholeFiles(file: seq<Entry>, es: seq<Event>)
    requires Run(file, es).Some?
    ensures Inv(Run(file, es).value)
    ensures forall i :: 0 <= i < |Run(file, es).value.seen| ==>
      Run(file, es).value.seen[i].1 == Run(file, es).value.seen[i].2
      && IsWhole(Run(file, es).value.seen[i].2, Run(file, es).value.loads)
    decreases |es|
  {
    hide MapsFile, IsWhole, Step, Enabled;
    if es == [] {
      LastLineWins(file);
    } else {
      var n := |es| - 1;
      ReadersSeeWholeFiles(file, es[..n]);
      StepKeepsInv(Run(file, es[..n]).value, es[n]);
    }
  }
}

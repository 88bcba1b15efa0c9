/** The embedded provider catalog: rows appended by many loaders, and three kinds of index
    over them that every loader keeps up to date. */
module Catalog {
  import opened Wrappers
  import opened Text
  import opened Rows
  import opened Keys
  import opened Providers
  import opened Sizes
  import opened Databases = ManagedDatabase

  // ----- what an index holds -----

  /** The rows with a key, in load order. */
  function Select<R>(rows: seq<R>, keyOf: R -> string, k: string): seq<R> {
    if rows == [] then []
    else
      var last := rows[|rows| - 1];
      Select(rows[..|rows| - 1], keyOf, k) + if keyOf(last) == k then [last] else []
  }

  lemma {:induction false} SelectAppend<R>(rows: seq<R>, keyOf: R -> string, k: string, r: R)
    ensures Select(rows + [r], keyOf, k) == Select(rows, keyOf, k) + if keyOf(r) == k then [r] else []
  {
    assert (rows + [r])[..|rows|] == rows;
  }

  lemma {:induction false} SelectMembers<R>(rows: seq<R>, keyOf: R -> string, k: string, r: R)
    ensures r in Select(rows, keyOf, k) <==> r in rows && keyOf(r) == k
  {
    if rows != [] {
      var init, last := rows[..|rows| - 1], rows[|rows| - 1];
      SelectMembers(init, keyOf, k, r);
      assert rows == init + [last];
    }
  }

  /** The first selected row is the first row with the key, */
  lemma {:induction false} SelectFirst<R>(rows: seq<R>, keyOf: R -> string, k: string) returns (i: nat)
    requires Select(rows, keyOf, k) != []
    ensures i < |rows| && rows[i] == Select(rows, keyOf, k)[0] && keyOf(rows[i]) == k
    ensures forall j :: 0 <= j < i ==> keyOf(rows[j]) != k
  {
    i := |rows| - 1;
    var init := rows[..i];
    if Select(init, keyOf, k) == [] {
      forall j | 0 <= j < i ensures keyOf(rows[j]) != k {
        assert rows[j] == init[j] && init[j] in init;
        SelectMembers(init, keyOf, k, init[j]);
      }
    } else {
      i := SelectFirst(init, keyOf, k);
      assert forall j :: 0 <= j <= i ==> rows[j] == init[j];
    }
  }

  /** and the last selected row is the last one. */
  lemma {:induction false} SelectLast<R>(rows: seq<R>, keyOf: R -> string, k: string) returns (i: nat)
    requires Select(rows, keyOf, k) != []
    ensures var s := Select(rows, keyOf, k); i < |rows| && rows[i] == s[|s| - 1] && keyOf(rows[i]) == k
    ensures forall j :: i < j < |rows| ==> keyOf(rows[j]) != k
  {
    i := |rows| - 1;
    if keyOf(rows[i]) != k {
      var init := rows[..i];
      assert Select(rows, keyOf, k) == Select(init, keyOf, k);
      var last := i;
      i := SelectLast(init, keyOf, k);
      assert forall j :: 0 <= j < last ==> rows[j] == init[j];
    }
  }

  ghost predicate FirstWins<R>(m: map<string, R>, rows: seq<R>, keyOf: R -> string) {
    forall k :: (k in m <==> Select(rows, keyOf, k) != []) && (k in m ==> m[k] == Select(rows, keyOf, k)[0])
  }

  ghost predicate LastWins<R>(m: map<string, R>, rows: seq<R>, keyOf: R -> string) {
    forall k :: (k in m <==> Select(rows, keyOf, k) != []) &&
                (k in m ==> var s := Select(rows, keyOf, k); m[k] == s[|s| - 1])
  }

  ghost predicate Grouped<R>(m: map<string, seq<R>>, rows: seq<R>, keyOf: R -> string) {
    forall k :: (k in m <==> Select(rows, keyOf, k) != []) && (k in m ==> m[k] == Select(rows, keyOf, k))
  }

  lemma {:induction false} FirstWinsStep<R>(m: map<string, R>, rows: seq<R>, keyOf: R -> string, r: R)
    requires FirstWins(m, rows, keyOf)
    ensures FirstWins(if keyOf(r) in m then m else m[keyOf(r) := r], rows + [r], keyOf)
  {
    forall k {
      SelectAppend(rows, keyOf, k, r);
    }
  }

  lemma {:induction false} LastWinsStep<R>(m: map<string, R>, rows: seq<R>, keyOf: R -> string, r: R)
    requires LastWins(m, rows, keyOf)
    ensures LastWins(m[keyOf(r) := r], rows + [r], keyOf)
  {
    forall k {
      SelectAppend(rows, keyOf, k, r);
    }
  }

  /** A missing group reads as empty. */
  function Group<R>(m: map<string, seq<R>>, k: string): seq<R> {
    if k in m then m[k] else []
  }

  lemma {:induction false} GroupedStep<R>(m: map<string, seq<R>>, rows: seq<R>, keyOf: R -> string, r: R)
    requires Grouped(m, rows, keyOf)
    ensures Grouped(m[keyOf(r) := Group(m, keyOf(r)) + [r]], rows + [r], keyOf)
  {
    forall k {
      SelectAppend(rows, keyOf, k, r);
    }
  }

  lemma {:induction false} GroupIsSelect<R>(m: map<string, seq<R>>, rows: seq<R>, keyOf: R -> string, k: string)
    requires Grouped(m, rows, keyOf)
    ensures Group(m, k) == Select(rows, keyOf, k)
  {
  }

  function KeyOfRegion(r: RegionRow): string {
    RegionKey(r.csp, r.regionName)
  }

  function KeyOfVM(r: VMRow): string {
    VmRegionArchKey(r.csp, r.cspRegion, r.architecture)
  }

  function KeyOfImage(r: OSImageRow): string {
    OsKey(r.csp, r.cspRegion, r.osName, r.osVersion, r.architecture)
  }

  function KeyOfMDB(r: MDBRow): string {
    MdbRegionEngineKey(r.csp, r.cspRegion, r.engine)
  }

  // ----- decoding one record of each snapshot -----

  datatype Decoded =
    | Region(region: RegionRow)
    | VM(vm: VMRow)
    | Image(image: OSImageRow)
    | MDB(mdb: MDBRow)
    | Skip
    | Malformed

  function Fields(line: string): (f: seq<string>)
    ensures f != []
  {
    if line == "" then [""]
    else if line[0] == ',' then [""] + Fields(line[1..])
    else var f := Fields(line[1..]); [[line[0]] + f[0]] + f[1..]
  }

  function T(f: seq<string>, i: nat): string
    requires i < |f|
  {
    TrimSpace(f[i])
  }

  predicate IsTrue(s: string) {
    EqualFold(TrimSpace(s), "true")
  }

  /** vm, os and mdb lines of the Azure and Ubicloud snapshots and of adapter snapshots. */
  function TokenLine(csp: string, kind: string, f: seq<string>): Decoded {
    if kind == "vm" then
      if |f| != 9 then Malformed
      else VM(VMRow(T(f, 1), T(f, 2), csp, T(f, 3), T(f, 4), AtoiOrZero(f[5]), AtoiOrZero(f[6]), T(f, 7), IsTrue(f[8])))
    else if kind == "os" then
      if |f| != 6 then Malformed else Image(OSImageRow(csp, T(f, 1), T(f, 2), T(f, 3), T(f, 4), T(f, 5)))
    else if kind == "mdb" then
      if |f| != 7 then Malformed
      else MDB(MDBRow(T(f, 1), T(f, 2), csp, T(f, 3), T(f, 4), AtoiOrZero(f[5]), AtoiOrZero(f[6])))
    else Malformed
  }

  /** loadAzure and loadUbicloud: a header is skipped, and region lines name their own csp. */
  function HeadedLine(csp: string, raw: string): Decoded {
    var line := TrimSpace(raw);
    if line == "" || HasPrefix(line, "#") then Skip
    else
      var f := Fields(line);
      var kind := TrimSpace(f[0]);
      if kind == "kind" then Skip
      else if kind == "region" then
        if |f| != 7 then Malformed
        else Region(RegionRow(T(f, 1), T(f, 2), T(f, 3), T(f, 4), T(f, 5), T(f, 6)))
      else TokenLine(csp, kind, f)
  }

  /** foldAdapterCatalog: no header, and every line belongs to the manifest's csp. */
  function AdapterLine(csp: string, raw: string): Decoded {
    var line := TrimSpace(raw);
    if line == "" || HasPrefix(line, "#") then Skip
    else
      var f := Fields(line);
      var kind := TrimSpace(f[0]);
      if kind == "region" then
        if |f| != 7 then Malformed
        else Region(RegionRow(T(f, 1), T(f, 2), T(f, 3), T(f, 4), T(f, 5), csp))
      else TokenLine(csp, kind, f)
  }

  const LINODE := "linode"

  /** foldLinodeCatalog: nine fields in every record, the csp forced. */
  function LinodeRecord(rec: seq<string>): Decoded {
    if |rec| != 9 then Malformed
    else
      var kind := Lower(TrimSpace(rec[0]));
      if kind == "region" then Region(RegionRow(rec[1], rec[2], rec[3], rec[4], rec[5], LINODE))
      else if kind == "vm" then
        VM(VMRow(rec[1], rec[2], LINODE, rec[3], rec[4], AtoiOrZero(rec[5]), AtoiOrZero(rec[6]), rec[7], IsTrue(rec[8])))
      else if kind == "os" then Image(OSImageRow(LINODE, rec[1], rec[2], rec[3], rec[4], rec[5]))
      else if kind == "mdb" then
        MDB(MDBRow(rec[1], rec[2], LINODE, rec[3], rec[4], AtoiOrZero(rec[5]), AtoiOrZero(rec[6])))
      else Malformed
  }

  /** loadOracleCatalog: blank separators are skipped, and each kind has its own width. */
  function OracleRecord(rec: seq<string>): Decoded {
    if |rec| == 0 || TrimSpace(rec[0]) == "" then Skip
    else
      var kind := Lower(TrimSpace(rec[0]));
      if kind == "region" then
        if |rec| != 7 then Malformed else Region(RegionRow(rec[1], rec[2], rec[3], rec[4], rec[5], rec[6]))
      else if kind == "vm" then
        if |rec| != 10 then Malformed
        else VM(VMRow(rec[1], rec[2], rec[3], rec[4], rec[5], AtoiOrZero(rec[6]), AtoiOrZero(rec[7]), rec[8], IsTrue(rec[9])))
      else if kind == "os" then
        if |rec| != 7 then Malformed else Image(OSImageRow(rec[1], rec[2], rec[3], rec[4], rec[5], rec[6]))
      else if kind == "mdb" then
        if |rec| != 8 then Malformed
        else MDB(MDBRow(rec[1], rec[2], rec[3], rec[4], rec[5], AtoiOrZero(rec[6]), AtoiOrZero(rec[7])))
      else Malformed
  }

  datatype Section = RegionSection | VMSection | MDBSection | OSSection

  /** The base tables and mergeStackIt: a record's kind is given by its table or section. */
  function SectionRecord(item: (Section, seq<string>)): Decoded {
    var (section, rec) := item;
    match section
    case RegionSection =>
      if |rec| != 6 then Malformed else Region(RegionRow(rec[0], rec[1], rec[2], rec[3], rec[4], rec[5]))
    case VMSection =>
      if |rec| != 9 then Malformed
      else VM(VMRow(rec[0], rec[1], rec[2], rec[3], rec[4], AtoiOrZero(rec[5]), AtoiOrZero(rec[6]), rec[7], IsTrue(rec[8])))
    case MDBSection =>
      if |rec| != 7 then Malformed
      else MDB(MDBRow(rec[0], rec[1], rec[2], rec[3], rec[4], AtoiOrZero(rec[5]), AtoiOrZero(rec[6])))
    case OSSection =>
      if |rec| != 6 then Malformed else Image(OSImageRow(rec[0], rec[1], rec[2], rec[3], rec[4], rec[5]))
  }

  // ----- rows written as records are read back -----

  function Line(fields: seq<string>): string
    requires fields != []
  {
    if |fields| == 1 then fields[0] else fields[0] + "," + Line(fields[1..])
  }

  predicate Plain(s: string) {
    forall i :: 0 <= i < |s| ==> s[i] != ','
  }

  lemma {:induction false} FieldsOne(s: string)
    requires Plain(s)
    ensures Fields(s) == [s]
  {
    if s != "" {
      assert Plain(s[1..]);
      FieldsOne(s[1..]);
      assert s == [s[0]] + s[1..];
    }
  }

  lemma {:induction false} FieldsFirst(s: string, rest: string)
    requires Plain(s)
    ensures Fields(s + "," + rest) == [s] + Fields(rest)
  {
    var text := s + "," + rest;
    if s == "" {
      assert text[0] == ',' && text[1..] == rest;
    } else {
      assert Plain(s[1..]);
      FieldsFirst(s[1..], rest);
      assert text[0] == s[0] && text[1..] == s[1..] + "," + rest && s == [s[0]] + s[1..];
    }
  }

  /** Splitting a line at its commas undoes joining fields without commas. */
  lemma {:induction false} FieldsOfLine(fields: seq<string>)
    requires fields != [] && forall f :: f in fields ==> Plain(f)
    ensures Fields(Line(fields)) == fields
  {
    assert fields[0] in fields;
    if |fields| == 1 {
      FieldsOne(fields[0]);
      assert fields == [fields[0]];
    } else {
      assert forall f :: f in fields[1..] ==> f in fields;
      FieldsOfLine(fields[1..]);
      FieldsFirst(fields[0], Line(fields[1..]));
      assert fields == [fields[0]] + fields[1..];
    }
  }

  function Flag(b: bool): string {
    if b then "true" else "false"
  }

  lemma {:induction false} FlagRead(b: bool)
    ensures IsTrue(Flag(b)) == b
  {
    TrimSolid("true");
    TrimSolid("false");
    assert Lower("true") == "true" && Lower("false") == "false" && |"true"| != |"false"|;
  }

  predicate SizeFits(cpu: int, ram: int) {
    FitsInt64(cpu) && FitsInt64(ram)
  }

  lemma {:induction false} SizeRead(cpu: int, ram: int)
    requires SizeFits(cpu, ram)
    ensures AtoiOrZero(Numeral(cpu)) == cpu && AtoiOrZero(Numeral(ram)) == ram
  {
    AtoiNumeral(cpu);
    AtoiNumeral(ram);
  }

  /** In the tables without a kind column, which name the provider in every row. */
  lemma {:induction false} SectionRoundTrip(r: RegionRow, v: VMRow, m: MDBRow, i: OSImageRow)
    requires SizeFits(v.cpu, v.ram) && SizeFits(m.cpu, m.ram)
    ensures SectionRecord((RegionSection, [r.macroRegion, r.country, r.regionName, r.cspRegion, r.description, r.csp]))
            == Region(r)
    ensures SectionRecord((VMSection, [v.name, v.family, v.csp, v.cspRegion, v.architecture, Numeral(v.cpu),
                                       Numeral(v.ram), v.gpu, Flag(v.autoscale)])) == VM(v)
    ensures SectionRecord((MDBSection, [m.name, m.family, m.csp, m.cspRegion, m.engine, Numeral(m.cpu), Numeral(m.ram)]))
            == MDB(m)
    ensures SectionRecord((OSSection, [i.csp, i.cspRegion, i.osName, i.osVersion, i.architecture, i.image])) == Image(i)
  {
    hide AtoiOrZero, Numeral, IsTrue, Flag;
    SizeRead(v.cpu, v.ram);
    SizeRead(m.cpu, m.ram);
    FlagRead(v.autoscale);
  }

  lemma {:induction false} KindsRead()
    ensures Lower(TrimSpace("region")) == "region" && Lower(TrimSpace("vm")) == "vm"
    ensures Lower(TrimSpace("os")) == "os" && Lower(TrimSpace("mdb")) == "mdb"
    ensures TrimSpace("region") == "region" && TrimSpace("vm") == "vm" && TrimSpace("os") == "os"
    ensures TrimSpace("mdb") == "mdb"
    ensures "region" != "vm" && "region" != "os" && "region" != "mdb" && "vm" != "os" && "vm" != "mdb" && "os" != "mdb"
  {
    TrimSolid("region");
    TrimSolid("vm");
    TrimSolid("os");
    TrimSolid("mdb");
    assert Lower("region") == "region" && Lower("vm") == "vm" && Lower("os") == "os" && Lower("mdb") == "mdb";
    assert "vm"[0] != "os"[0];
  }

  /** In Oracle's file each record names its kind and its provider. */
  lemma {:induction false} OracleRoundTrip(r: RegionRow, v: VMRow, m: MDBRow, i: OSImageRow)
    requires SizeFits(v.cpu, v.ram) && SizeFits(m.cpu, m.ram)
    ensures OracleRecord(["region", r.macroRegion, r.country, r.regionName, r.cspRegion, r.description, r.csp]) == Region(r)
    ensures OracleRecord(["vm", v.name, v.family, v.csp, v.cspRegion, v.architecture, Numeral(v.cpu), Numeral(v.ram),
                          v.gpu, Flag(v.autoscale)]) == VM(v)
    ensures OracleRecord(["mdb", m.name, m.family, m.csp, m.cspRegion, m.engine, Numeral(m.cpu), Numeral(m.ram)]) == MDB(m)
    ensures OracleRecord(["os", i.csp, i.cspRegion, i.osName, i.osVersion, i.architecture, i.image]) == Image(i)
  {
    hide AtoiOrZero, Numeral, IsTrue, Flag, TrimSpace, Lower;
    SizeRead(v.cpu, v.ram);
    SizeRead(m.cpu, m.ram);
    FlagRead(v.autoscale);
    KindsRead();
  }

  /** In Linode's file every record has nine fields and the provider is understood. */
  lemma {:induction false} LinodeRoundTrip(r: RegionRow, v: VMRow, m: MDBRow, i: OSImageRow, a: string, b: string,
        c: string)
    requires SizeFits(v.cpu, v.ram) && SizeFits(m.cpu, m.ram)
    requires r.csp == "linode" && v.csp == "linode" && m.csp == "linode" && i.csp == "linode"
    ensures LinodeRecord(["region", r.macroRegion, r.country, r.regionName, r.cspRegion, r.description, a, b, c]) == Region(r)
    ensures LinodeRecord(["vm", v.name, v.family, v.cspRegion, v.architecture, Numeral(v.cpu), Numeral(v.ram), v.gpu,
                          Flag(v.autoscale)]) == VM(v)
    ensures LinodeRecord(["mdb", m.name, m.family, m.cspRegion, m.engine, Numeral(m.cpu), Numeral(m.ram), a, b]) == MDB(m)
    ensures LinodeRecord(["os", i.cspRegion, i.osName, i.osVersion, i.architecture, i.image, a, b, c]) == Image(i)
  {
    hide AtoiOrZero, Numeral, IsTrue, Flag, TrimSpace, Lower;
    SizeRead(v.cpu, v.ram);
    SizeRead(m.cpu, m.ram);
    FlagRead(v.autoscale);
    KindsRead();
  }

  /** A record is refused exactly for its width or, where it names its kind, for its kind. */
  lemma {:induction false} RefusedIff(section: Section, rec: seq<string>)
    ensures SectionRecord((section, rec)).Malformed? <==>
            |rec| != (match section case RegionSection => 6 case VMSection => 9 case MDBSection => 7 case OSSection => 6)
    ensures LinodeRecord(rec).Malformed? <==>
            |rec| != 9 || Lower(TrimSpace(rec[0])) !in ["region", "vm", "os", "mdb"]
    ensures OracleRecord(rec).Malformed? <==>
            && rec != [] && TrimSpace(rec[0]) != ""
            && (Lower(TrimSpace(rec[0])), |rec|) !in [("region", 7), ("vm", 10), ("os", 7), ("mdb", 8)]
    ensures OracleRecord(rec).Skip? <==> rec == [] || TrimSpace(rec[0]) == ""
  {
    hide TrimSpace, Lower, AtoiOrZero, IsTrue;
    assert "os"[0] != "vm"[0] && |"os"| == 2 && |"mdb"| == 3 && |"region"| == 6;
  }

  /** Blank lines, comments and, in the files that have one, the header are passed over; any other
      line counts, and is refused for its kind or its width. */
  lemma {:induction false} LineRefusedIff(csp: string, raw: string)
    ensures var line := TrimSpace(raw);
            var f := Fields(line);
            var shape := (TrimSpace(f[0]), |f|);
            var passed := line == "" || line[0] == '#';
            && (HeadedLine(csp, raw).Skip? <==> passed || shape.0 == "kind")
            && (AdapterLine(csp, raw).Skip? <==> passed)
            && (HeadedLine(csp, raw).Malformed? <==>
                !passed && shape.0 != "kind" && shape !in [("region", 7), ("vm", 9), ("os", 6), ("mdb", 7)])
            && (AdapterLine(csp, raw).Malformed? <==>
                !passed && shape !in [("region", 7), ("vm", 9), ("os", 6), ("mdb", 7)])
  {
    hide TrimSpace, AtoiOrZero, IsTrue, Fields;
    assert "os"[0] != "vm"[0] && |"os"| == 2 && |"mdb"| == 3 && |"region"| == 6 && |"kind"| == 4;
  }

  /** A field that comes back from a line: no comma in it, and no white space around it. */
  predicate Neat(s: string) {
    Plain(s) && TrimSpace(s) == s
  }

  predicate NeatRegion(r: RegionRow) {
    && Neat(r.macroRegion) && Neat(r.country) && Neat(r.regionName)
    && Neat(r.cspRegion) && Neat(r.description) && Neat(r.csp)
  }

  predicate NeatVM(v: VMRow) {
    && SizeFits(v.cpu, v.ram)
    && Neat(v.name) && Neat(v.family) && Neat(v.cspRegion) && Neat(v.architecture) && Neat(v.gpu)
  }

  predicate NeatMDB(m: MDBRow) {
    SizeFits(m.cpu, m.ram) && Neat(m.name) && Neat(m.family) && Neat(m.cspRegion) && Neat(m.engine)
  }

  predicate NeatImage(i: OSImageRow) {
    Neat(i.cspRegion) && Neat(i.osName) && Neat(i.osVersion) && Neat(i.architecture) && Neat(i.image)
  }

  lemma {:induction false} NeatEnds(s: string)
    requires TrimSpace(s) == s && s != ""
    ensures !IsSpace(s[0]) && !IsSpace(s[|s| - 1])
  {
    var i, j := TrimSpaceExact(s);
  }

  lemma {:induction false} LineEnds(fields: seq<string>)
    requires |fields| >= 2
    ensures |Line(fields)| > |fields[0]| && fields[0] <= Line(fields)
    ensures var l, last := Line(fields), fields[|fields| - 1];
            l[|l| - 1] == if last == "" then ',' else last[|last| - 1]
  {
    if |fields| > 2 {
      LineEnds(fields[1..]);
    } else {
      assert Line(fields[1..]) == fields[1];
    }
  }

  /** A line of neat fields is neat itself, and no comment. */
  lemma {:induction false} LineRead(fields: seq<string>)
    requires |fields| >= 2 && fields[0] in ["region", "vm", "os", "mdb"] && forall f :: f in fields ==> Neat(f)
    ensures TrimSpace(Line(fields)) == Line(fields) && Fields(Line(fields)) == fields
    ensures Line(fields) != "" && !HasPrefix(Line(fields), "#") && fields[0] != "kind"
  {
    hide TrimSpace, Line, Fields;
    var l, last := Line(fields), fields[|fields| - 1];
    LineEnds(fields);
    assert last in fields;
    if last != "" {
      NeatEnds(last);
    }
    assert l[0] == fields[0][0];
    TrimSolid(l);
    FieldsOfLine(fields);
    assert "kind"[0] == 'k';
  }

  lemma {:induction false} NumeralNeat(n: int)
    ensures Neat(Numeral(n))
  {
    TrimSolid(Numeral(n));
  }

  lemma {:induction false} FlagNeat(b: bool)
    ensures Neat(Flag(b))
  {
    TrimSolid(Flag(b));
  }

  lemma {:induction false} KindsNeat()
    ensures Neat("region") && Neat("vm") && Neat("os") && Neat("mdb")
  {
    KindsRead();
  }

  /** A machine written as a line of the Azure, Ubicloud or an adapter's file, with whatever
      white space around the line, is read back. */
  lemma {:induction false} VMLineRoundTrip(raw: string, v: VMRow)
    requires NeatVM(v)
    requires TrimSpace(raw) == Line(["vm", v.name, v.family, v.cspRegion, v.architecture, Numeral(v.cpu),
                                     Numeral(v.ram), v.gpu, Flag(v.autoscale)])
    ensures HeadedLine(v.csp, raw) == VM(v) && AdapterLine(v.csp, raw) == VM(v)
  {
    hide AtoiOrZero, Numeral, IsTrue, Flag, TrimSpace, Line, Fields, Plain;
    var fields := ["vm", v.name, v.family, v.cspRegion, v.architecture, Numeral(v.cpu), Numeral(v.ram), v.gpu,
                   Flag(v.autoscale)];
    NumeralNeat(v.cpu);
    NumeralNeat(v.ram);
    FlagNeat(v.autoscale);
    KindsNeat();
    KindsRead();
    LineRead(fields);
    SizeRead(v.cpu, v.ram);
    FlagRead(v.autoscale);
  }

  lemma {:induction false} MDBLineRoundTrip(raw: string, m: MDBRow)
    requires NeatMDB(m)
    requires TrimSpace(raw) == Line(["mdb", m.name, m.family, m.cspRegion, m.engine, Numeral(m.cpu), Numeral(m.ram)])
    ensures HeadedLine(m.csp, raw) == MDB(m) && AdapterLine(m.csp, raw) == MDB(m)
  {
    hide AtoiOrZero, Numeral, TrimSpace, Line, Fields, Plain;
    NumeralNeat(m.cpu);
    NumeralNeat(m.ram);
    KindsNeat();
    KindsRead();
    LineRead(["mdb", m.name, m.family, m.cspRegion, m.engine, Numeral(m.cpu), Numeral(m.ram)]);
    SizeRead(m.cpu, m.ram);
  }

  lemma {:induction false} ImageLineRoundTrip(raw: string, i: OSImageRow)
    requires NeatImage(i)
    requires TrimSpace(raw) == Line(["os", i.cspRegion, i.osName, i.osVersion, i.architecture, i.image])
    ensures HeadedLine(i.csp, raw) == Image(i) && AdapterLine(i.csp, raw) == Image(i)
  {
    hide TrimSpace, Line, Fields, Plain;
    KindsNeat();
    KindsRead();
    LineRead(["os", i.cspRegion, i.osName, i.osVersion, i.architecture, i.image]);
  }

  /** A region's line names its provider; an adapter's file is read under the manifest's. */
  lemma {:induction false} RegionLineRoundTrip(csp: string, raw: string, r: RegionRow)
    requires NeatRegion(r)
    requires TrimSpace(raw) == Line(["region", r.macroRegion, r.country, r.regionName, r.cspRegion, r.description, r.csp])
    ensures HeadedLine(csp, raw) == Region(r) && AdapterLine(csp, raw) == Region(r.(csp := csp))
  {
    hide TrimSpace, Line, Fields, TokenLine;
    KindsNeat();
    KindsRead();
    LineRead(["region", r.macroRegion, r.country, r.regionName, r.cspRegion, r.description, r.csp]);
  }

  // ----- the OVH snapshot -----

  const OVH := "ovh"
  const X86_64 := "x86_64"
  const POSTGRES := "postgres"
  const MYSQL := "mysql"

  datatype Flavor = Flavor(name: string, cpu: int, ram: int)

  datatype OvhRecord = OvhRegion(row: RegionRow) | DbFlavor(flavor: Flavor) | NodeFlavor(flavor: Flavor) | OvhMalformed

  /** NewOVHCatalog reads region and flavor records; a flavor that is not a database's is a node's. */
  function ReadOvh(rec: seq<string>): OvhRecord {
    if |rec| != 6 then OvhMalformed
    else if rec[0] == "region" then OvhRegion(RegionRow(rec[1], rec[2], rec[3], rec[4], rec[5], OVH))
    else if rec[0] == "flavor" then
      var flavor := Flavor(rec[2], AtoiOrZero(rec[3]), AtoiOrZero(rec[4]));
      if rec[1] == "db" then DbFlavor(flavor) else NodeFlavor(flavor)
    else OvhMalformed
  }

  datatype OvhTables = OvhTables(regions: seq<RegionRow>, dbs: seq<Flavor>, nodes: seq<Flavor>) {
    function Plus(r: OvhRecord): OvhTables {
      match r
      case OvhRegion(row) => this.(regions := regions + [row])
      case DbFlavor(flavor) => this.(dbs := dbs + [flavor])
      case NodeFlavor(flavor) => this.(nodes := nodes + [flavor])
      case OvhMalformed => this
    }
  }

  function OvhTablesOf(records: seq<seq<string>>): OvhTables {
    if records == [] then OvhTables([], [], [])
    else OvhTablesOf(records[..|records| - 1]).Plus(ReadOvh(records[|records| - 1]))
  }

  predicate OvhReadable(records: seq<seq<string>>, n: nat)
    requires n <= |records|
  {
    forall i :: 0 <= i < n ==> ReadOvh(records[i]) != OvhMalformed
  }

  method ParseOvh(records: seq<seq<string>>) returns (tables: Option<OvhTables>)
    ensures tables.Some? <==> OvhReadable(records, |records|) && OvhTablesOf(records).regions != []
    ensures tables.Some? ==> tables.value == OvhTablesOf(records)
  {
    var t := OvhTables([], [], []);
    for i := 0 to |records|
      invariant OvhReadable(records, i) && t == OvhTablesOf(records[..i])
    {
      assert records[..i + 1][..i] == records[..i];
      var r := ReadOvh(records[i]);
      if r.OvhMalformed? {
        return None;
      }
      t := t.Plus(r);
    }
    assert records[..|records|] == records;
    tables := if t.regions == [] then None else Some(t);
  }

  /** A flavor's family is its name up to the first hyphen. */
  function FamilyOf(name: string): string {
    var i := HyphenAt(name);
    if 0 < i < |name| then name[..i] else name
  }

  function HyphenAt(s: string): (i: nat)
    ensures i <= |s|
  {
    if s == "" || s[0] == '-' then 0 else 1 + HyphenAt(s[1..])
  }

  function OvhMdb(r: RegionRow, f: Flavor, engine: string): Decoded {
    MDB(MDBRow(f.name, FamilyOf(f.name), OVH, r.cspRegion, engine, f.cpu, f.ram))
  }

  function OvhVM(r: RegionRow, f: Flavor): Decoded {
    VM(VMRow(f.name, FamilyOf(f.name), OVH, r.cspRegion, X86_64, f.cpu, f.ram, "0", true))
  }

  function OvhMdbs(r: RegionRow, dbs: seq<Flavor>): seq<Decoded> {
    if dbs == [] then []
    else
      var f := dbs[|dbs| - 1];
      OvhMdbs(r, dbs[..|dbs| - 1]) + [OvhMdb(r, f, POSTGRES), OvhMdb(r, f, MYSQL)]
  }

  function OvhVMs(r: RegionRow, nodes: seq<Flavor>): seq<Decoded> {
    seq(|nodes|, i requires 0 <= i < |nodes| => OvhVM(r, nodes[i]))
  }

  /** Each region, followed by its database rows, one per flavor and engine, and its VM rows. */
  function OvhRows(regions: seq<RegionRow>, dbs: seq<Flavor>, nodes: seq<Flavor>): seq<Decoded> {
    if regions == [] then []
    else
      var r := regions[|regions| - 1];
      OvhRows(regions[..|regions| - 1], dbs, nodes) + ([Region(r)] + OvhMdbs(r, dbs) + OvhVMs(r, nodes))
  }

  predicate OvhRowOf(r: RegionRow, dbs: seq<Flavor>, nodes: seq<Flavor>, d: Decoded) {
    || d == Region(r)
    || (exists f :: f in dbs && (d == OvhMdb(r, f, POSTGRES) || d == OvhMdb(r, f, MYSQL)))
    || (exists f :: f in nodes && d == OvhVM(r, f))
  }

  lemma {:induction false} OvhMdbsExact(r: RegionRow, dbs: seq<Flavor>, d: Decoded)
    ensures d in OvhMdbs(r, dbs) <==> exists f :: f in dbs && (d == OvhMdb(r, f, POSTGRES) || d == OvhMdb(r, f, MYSQL))
  {
    hide OvhMdb;
    if dbs != [] {
      OvhMdbsExact(r, dbs[..|dbs| - 1], d);
      assert dbs == dbs[..|dbs| - 1] + [dbs[|dbs| - 1]];
    }
  }

  lemma {:induction false} OvhVMsExact(r: RegionRow, nodes: seq<Flavor>, d: Decoded)
    ensures d in OvhVMs(r, nodes) <==> exists f :: f in nodes && d == OvhVM(r, f)
  {
    hide OvhVM;
    if d in OvhVMs(r, nodes) {
      var j :| 0 <= j < |nodes| && OvhVMs(r, nodes)[j] == d;
      assert nodes[j] in nodes;
    }
    if f :| f in nodes && d == OvhVM(r, f) {
      var j :| 0 <= j < |nodes| && nodes[j] == f;
      assert OvhVMs(r, nodes)[j] == d;
    }
  }

  /** The snapshot stands for every region with every flavor, and for nothing else. */
  lemma {:induction false} OvhRowsExact(regions: seq<RegionRow>, dbs: seq<Flavor>, nodes: seq<Flavor>, d: Decoded)
    ensures d in OvhRows(regions, dbs, nodes) <==> exists r :: r in regions && OvhRowOf(r, dbs, nodes, d)
  {
    hide OvhMdb, OvhVM, OvhMdbs, OvhVMs;
    if regions != [] {
      var init, r := regions[..|regions| - 1], regions[|regions| - 1];
      OvhRowsExact(init, dbs, nodes, d);
      OvhMdbsExact(r, dbs, d);
      OvhVMsExact(r, nodes, d);
      assert regions == init + [r];
      assert d in [Region(r)] + OvhMdbs(r, dbs) + OvhVMs(r, nodes) <==> OvhRowOf(r, dbs, nodes, d);
    }
  }

  predicate RegionAt(rec: seq<string>, r: RegionRow) {
    |rec| == 6 && rec[0] == "region" && r == RegionRow(rec[1], rec[2], rec[3], rec[4], rec[5], "ovh")
  }

  predicate FlavorAt(rec: seq<string>, db: bool, f: Flavor) {
    && |rec| == 6 && rec[0] == "flavor" && (db <==> rec[1] == "db")
    && f == Flavor(rec[2], AtoiOrZero(rec[3]), AtoiOrZero(rec[4]))
  }

  /** The tables hold what the records say, each flavor in the table of its kind. */
  lemma {:induction false} OvhTablesExact(records: seq<seq<string>>, r: RegionRow, f: Flavor)
    ensures r in OvhTablesOf(records).regions <==> exists i :: 0 <= i < |records| && RegionAt(records[i], r)
    ensures f in OvhTablesOf(records).dbs <==> exists i :: 0 <= i < |records| && FlavorAt(records[i], true, f)
    ensures f in OvhTablesOf(records).nodes <==> exists i :: 0 <= i < |records| && FlavorAt(records[i], false, f)
  {
    hide ReadOvh, RegionAt, FlavorAt;
    if records != [] {
      var init, last := records[..|records| - 1], records[|records| - 1];
      OvhTablesExact(init, r, f);
      RecordRead(last, r, f);
      assert forall i :: 0 <= i < |init| ==> init[i] == records[i];
    }
  }

  lemma {:induction false} RecordRead(rec: seq<string>, r: RegionRow, f: Flavor)
    ensures ReadOvh(rec) == OvhRegion(r) <==> RegionAt(rec, r)
    ensures ReadOvh(rec) == DbFlavor(f) <==> FlavorAt(rec, true, f)
    ensures ReadOvh(rec) == NodeFlavor(f) <==> FlavorAt(rec, false, f)
  {
    hide AtoiOrZero;
  }

  /** The rows the snapshot stands for, field by field. */
  lemma {:induction false} OvhRowsMeaning(regions: seq<RegionRow>, dbs: seq<Flavor>, nodes: seq<Flavor>, r: RegionRow,
        v: VMRow, m: MDBRow)
    ensures Region(r) in OvhRows(regions, dbs, nodes) <==> r in regions
    ensures VM(v) in OvhRows(regions, dbs, nodes) <==>
            exists at, f :: at in regions && f in nodes &&
              v == VMRow(f.name, FamilyOf(f.name), "ovh", at.cspRegion, "x86_64", f.cpu, f.ram, "0", true)
    ensures MDB(m) in OvhRows(regions, dbs, nodes) <==>
            exists at, f :: at in regions && f in dbs && m.engine in ["postgres", "mysql"] &&
              m == MDBRow(f.name, FamilyOf(f.name), "ovh", at.cspRegion, m.engine, f.cpu, f.ram)
  {
    hide OvhRows, FamilyOf;
    OvhRowsExact(regions, dbs, nodes, Region(r));
    OvhRowsExact(regions, dbs, nodes, VM(v));
    OvhRowsExact(regions, dbs, nodes, MDB(m));
  }

  predicate HyphenFree(s: string) {
    forall i :: 0 <= i < |s| ==> s[i] != '-'
  }

  /** A flavor's family is what comes before the first hyphen, or the whole name. */
  lemma {:induction false} FamilyIsHead(family: string, rest: string)
    requires HyphenFree(family)
    ensures FamilyOf(family) == family
    ensures FamilyOf(family + "-" + rest) == if family == "" then "-" + rest else family
  {
    HyphenAtHead(family, "");
    HyphenAtHead(family, "-" + rest);
    assert family + "" == family && family + ("-" + rest) == family + "-" + rest;
  }

  lemma {:induction false} HyphenAtHead(s: string, rest: string)
    requires HyphenFree(s) && (rest == "" || rest[0] == '-')
    ensures HyphenAt(s + rest) == |s|
  {
    if s == "" {
      assert s + rest == rest;
    } else {
      assert (s + rest)[1..] == s[1..] + rest;
      HyphenAtHead(s[1..], rest);
    }
  }

  // ----- what a loader adds -----

  function Decode<T>(decode: T -> Decoded, items: seq<T>): seq<Decoded> {
    seq(|items|, i requires 0 <= i < |items| => decode(items[i]))
  }

  predicate WellFormed(ds: seq<Decoded>) {
    Malformed !in ds
  }

  /** What comes before the first malformed record. */
  function Accepted(ds: seq<Decoded>): seq<Decoded> {
    if ds == [] || ds[0].Malformed? then [] else [ds[0]] + Accepted(ds[1..])
  }

  lemma {:induction false} AcceptedOfWellFormed(ds: seq<Decoded>)
    requires WellFormed(ds)
    ensures Accepted(ds) == ds
  {
    if ds != [] {
      assert ds[0] in ds && forall d :: d in ds[1..] ==> d in ds;
      AcceptedOfWellFormed(ds[1..]);
    }
  }

  lemma {:induction false} AcceptedStopsAt(ds: seq<Decoded>, i: nat)
    requires i < |ds| && ds[i].Malformed? && WellFormed(ds[..i])
    ensures Accepted(ds) == ds[..i]
  {
    if i > 0 {
      assert ds[0] in ds[..i] && ds[1..][..i - 1] == ds[..i][1..];
      assert forall d :: d in ds[1..][..i - 1] ==> d in ds[..i];
      AcceptedStopsAt(ds[1..], i - 1);
      assert ds[..i] == [ds[0]] + ds[1..][..i - 1];
    }
  }

  function Regions(ds: seq<Decoded>): seq<RegionRow> {
    if ds == [] then []
    else Regions(ds[..|ds| - 1]) + match ds[|ds| - 1] case Region(r) => [r] case _ => []
  }

  function VMs(ds: seq<Decoded>): seq<VMRow> {
    if ds == [] then []
    else VMs(ds[..|ds| - 1]) + match ds[|ds| - 1] case VM(r) => [r] case _ => []
  }

  function Images(ds: seq<Decoded>): seq<OSImageRow> {
    if ds == [] then []
    else Images(ds[..|ds| - 1]) + match ds[|ds| - 1] case Image(r) => [r] case _ => []
  }

  function MDBs(ds: seq<Decoded>): seq<MDBRow> {
    if ds == [] then []
    else MDBs(ds[..|ds| - 1]) + match ds[|ds| - 1] case MDB(r) => [r] case _ => []
  }

  /** Every row a catalog was given, in load order. */
  datatype Loaded = Loaded(regions: seq<RegionRow>, vms: seq<VMRow>, images: seq<OSImageRow>, mdbs: seq<MDBRow>) {
    function Plus(ds: seq<Decoded>): Loaded {
      Loaded(regions + Regions(ds), vms + VMs(ds), images + Images(ds), mdbs + MDBs(ds))
    }
  }

  lemma {:induction false} PlusStep(l: Loaded, ds: seq<Decoded>, d: Decoded)
    ensures l.Plus(ds + [d]) == l.Plus(ds).Plus([d])
  {
    assert (ds + [d])[..|ds|] == ds && [d][..0] == [];
    assert Regions([]) + Regions([d]) == Regions([d]) && VMs([]) + VMs([d]) == VMs([d]);
    assert Images([]) + Images([d]) == Images([d]) && MDBs([]) + MDBs([d]) == MDBs([d]);
    assert l.regions + Regions(ds + [d]) == l.regions + Regions(ds) + Regions([d]);
    assert l.vms + VMs(ds + [d]) == l.vms + VMs(ds) + VMs([d]);
    assert l.images + Images(ds + [d]) == l.images + Images(ds) + Images([d]);
    assert l.mdbs + MDBs(ds + [d]) == l.mdbs + MDBs(ds) + MDBs([d]);
  }

  /** The parts of an adapter's manifest that registration insists on. */
  datatype Manifest = Manifest(
    provider: string, csp: string, tfLocal: string, tfSource: string, vmTemplate: string, sgTemplate: string)

  predicate ManifestOk(m: Manifest) {
    && m.provider != "" && m.csp != "" && m.tfLocal != "" && m.tfSource != ""
    && m.vmTemplate != "" && m.sgTemplate != ""
    && m.provider in PROVIDER_TO_CSP && CloudSource(m.provider).Some?
  }

  /** One snapshot file, with the loader that reads it: a base table with its header, the
      multi-section file, the files of one provider, and the provenance record that only has
      to be there. Only the tail adapters may lack a registered file. */
  datatype Snapshot =
    | Base(section: Section, table: seq<seq<string>>)
    | Headed(csp: string, lines: seq<string>)
    | Linode(records: seq<seq<string>>)
    | Oracle(records: seq<seq<string>>)
    | Ovh(records: seq<seq<string>>)
    | Sections(items: seq<(Section, seq<string>)>)
    | Adapter(manifest: Manifest, tail: bool, lines: seq<string>)
    | Provenance(text: string)
  {
    /** What the file stands for; a file refused as a whole stands for one malformed record. */
    function Decoding(): seq<Decoded> {
      match this
      case Base(section, table) =>
        if table == [] then [Malformed] else Decode((rec: seq<string>) => SectionRecord((section, rec)), table[1..])
      case Headed(csp, lines) => Decode((l: string) => HeadedLine(csp, l), lines)
      case Linode(records) => Decode(LinodeRecord, records)
      case Oracle(records) => Decode(OracleRecord, records)
      case Ovh(records) =>
        var t := OvhTablesOf(records);
        if OvhReadable(records, |records|) && t.regions != [] then OvhRows(t.regions, t.dbs, t.nodes) else [Malformed]
      case Sections(items) => Decode(SectionRecord, items)
      case Adapter(manifest, tail, lines) =>
        if (tail && lines == [""]) || !ManifestOk(manifest) then [Malformed]
        else Decode((l: string) => AdapterLine(manifest.csp, l), lines)
      case Provenance(text) => if TrimSpace(text) == "" then [Malformed] else []
    }
  }

  /** An adapter's file loads exactly when its manifest is complete and names a provider the
      catalog and Terraform know, a tail adapter's file is there, and every line is in order. */
  lemma {:induction false} AdapterLoadsIff(m: Manifest, tail: bool, lines: seq<string>)
    ensures WellFormed(Adapter(m, tail, lines).Decoding()) <==>
            && !(tail && lines == [""])
            && "" !in [m.provider, m.csp, m.tfLocal, m.tfSource, m.vmTemplate, m.sgTemplate]
            && m.provider in PROVIDER_TO_CSP && CloudSource(m.provider).Some?
            && forall i :: 0 <= i < |lines| ==> !AdapterLine(m.csp, lines[i]).Malformed?
  {
    hide AdapterLine, CloudSource;
    var ds := Decode((l: string) => AdapterLine(m.csp, l), lines);
    assert forall i :: 0 <= i < |lines| ==> ds[i] == AdapterLine(m.csp, lines[i]) && ds[i] in ds;
    assert Malformed in [Malformed];
  }

  /** A base table needs a header, the provenance record some text. */
  lemma {:induction false} TableLoadsIff(section: Section, table: seq<seq<string>>, text: string)
    ensures WellFormed(Base(section, table).Decoding()) <==>
            table != [] && forall i :: 1 <= i < |table| ==> !SectionRecord((section, table[i])).Malformed?
    ensures WellFormed(Provenance(text).Decoding()) <==> TrimSpace(text) != ""
  {
    hide SectionRecord, TrimSpace;
    assert Malformed in [Malformed];
    if table != [] {
      DecodedTable(section, table[1..]);
      assert forall i :: 1 <= i < |table| ==> table[i] == table[1..][i - 1];
    }
  }

  lemma {:induction false} DecodedTable(section: Section, rows: seq<seq<string>>)
    ensures WellFormed(Decode((rec: seq<string>) => SectionRecord((section, rec)), rows)) <==>
            forall i :: 0 <= i < |rows| ==> !SectionRecord((section, rows[i])).Malformed?
  {
    hide SectionRecord;
    var ds := Decode((rec: seq<string>) => SectionRecord((section, rec)), rows);
    assert forall i :: 0 <= i < |rows| ==> ds[i] == SectionRecord((section, rows[i])) && ds[i] in ds;
  }

  /** A base table written from rows, under any header, loads as those rows in order. */
  lemma {:induction false} VMTableRoundTrip(header: seq<string>, table: seq<seq<string>>, vms: seq<VMRow>)
    requires |table| == |vms| && forall k :: 0 <= k < |vms| ==> SizeFits(vms[k].cpu, vms[k].ram)
    requires forall k :: 0 <= k < |vms| ==>
      var v := vms[k];
      table[k] == [v.name, v.family, v.csp, v.cspRegion, v.architecture, Numeral(v.cpu), Numeral(v.ram), v.gpu,
                   Flag(v.autoscale)]
    ensures var ds := Base(VMSection, [header] + table).Decoding(); WellFormed(ds) && VMs(ds) == vms
  {
    hide AtoiOrZero, Numeral, IsTrue, Flag, VMs;
    var ds := Base(VMSection, [header] + table).Decoding();
    assert ([header] + table)[1..] == table;
    forall k | 0 <= k < |vms| ensures ds[k] == VM(vms[k]) {
      SizeRead(vms[k].cpu, vms[k].ram);
      FlagRead(vms[k].autoscale);
    }
    VMsOf(ds, vms);
  }

  lemma {:induction false} VMsOf(ds: seq<Decoded>, vms: seq<VMRow>)
    requires |ds| == |vms| && forall k :: 0 <= k < |vms| ==> ds[k] == VM(vms[k])
    ensures VMs(ds) == vms
  {
    if ds != [] {
      VMsOf(ds[..|ds| - 1], vms[..|vms| - 1]);
      assert vms == vms[..|vms| - 1] + [vms[|vms| - 1]];
    }
  }

  // ----- resolution -----

  /** Tie-break rank of the general-purpose families; 100 for the rest. */
  const PREFERRED_FAMILIES: map<string, int> := map[
    "t3" := 0, "t4g" := 0, "e2" := 0, "Droplet" := 0, "t3a" := 1, "m5" := 2, "n2" := 2, "c5" := 3,
    "standard" := 0, "bx2" := 0, "cx2" := 3, "mx2" := 2]

  function FamilyRank(r: VMRow): int {
    if r.family in PREFERRED_FAMILIES then PREFERRED_FAMILIES[r.family] else 100
  }

  predicate Preferred(a: VMRow, b: VMRow) {
    FamilyRank(a) < FamilyRank(b) || (FamilyRank(a) == FamilyRank(b) && Less(a.name, b.name))
  }

  predicate SkuMatches(k: string, cpu: int, ram: int, r: VMRow) {
    KeyOfVM(r) == k && r.cpu == cpu && r.ram == ram
  }

  /** A matching row that no matching row is preferred to. */
  predicate IsChosenSKU(rows: seq<VMRow>, k: string, cpu: int, ram: int, best: VMRow) {
    && best in rows && SkuMatches(k, cpu, ram, best)
    && forall r | r in rows && SkuMatches(k, cpu, ram, r) :: !Preferred(r, best)
  }

  predicate ClassMatches(k: string, cpu: int, ram: int, r: MDBRow) {
    KeyOfMDB(r) == k && r.cpu == cpu && r.ram == ram
  }

  predicate IsChosenClass(rows: seq<MDBRow>, k: string, cpu: int, ram: int, best: MDBRow) {
    && best in rows && ClassMatches(k, cpu, ram, best)
    && forall r | r in rows && ClassMatches(k, cpu, ram, r) :: !Less(r.name, best.name)
  }

  /** What matching a key means: the same provider, region and architecture up to case. */
  lemma {:induction false} VmKeyMeaning(r: VMRow, csp: string, cspRegion: string, arch: string)
    requires BarFree(r.csp) && BarFree(r.cspRegion) && BarFree(csp) && BarFree(cspRegion)
    ensures KeyOfVM(r) == VmRegionArchKey(csp, cspRegion, arch) <==>
            EqualFold(r.csp, csp) && EqualFold(r.cspRegion, cspRegion) && EqualFold(r.architecture, arch)
  {
    var xs, ys := [r.csp, r.cspRegion, r.architecture], [csp, cspRegion, arch];
    JoinedInjective(xs, ys);
    assert (forall i :: 0 <= i < |xs| ==> EqualFold(xs[i], ys[i])) <==>
           EqualFold(xs[0], ys[0]) && EqualFold(xs[1], ys[1]) && EqualFold(xs[2], ys[2]);
  }

  /** The same of databases: the same provider, region and engine. */
  lemma {:induction false} MdbKeyMeaning(r: MDBRow, csp: string, cspRegion: string, engine: string)
    requires BarFree(r.csp) && BarFree(r.cspRegion) && BarFree(csp) && BarFree(cspRegion)
    ensures KeyOfMDB(r) == MdbRegionEngineKey(csp, cspRegion, engine) <==>
            EqualFold(r.csp, csp) && EqualFold(r.cspRegion, cspRegion) && EqualFold(r.engine, engine)
  {
    var xs, ys := [r.csp, r.cspRegion, r.engine], [csp, cspRegion, engine];
    JoinedInjective(xs, ys);
    assert (forall i :: 0 <= i < |xs| ==> EqualFold(xs[i], ys[i])) <==>
           EqualFold(xs[0], ys[0]) && EqualFold(xs[1], ys[1]) && EqualFold(xs[2], ys[2]);
  }

  /** And of images: all five parts. */
  lemma {:induction false} ImageKeyMeaning(r: OSImageRow, csp: string, cspRegion: string, os: string, version: string,
        arch: string)
    requires BarFree(r.csp) && BarFree(r.cspRegion) && BarFree(r.osName) && BarFree(r.osVersion)
    requires BarFree(csp) && BarFree(cspRegion) && BarFree(os) && BarFree(version)
    ensures KeyOfImage(r) == OsKey(csp, cspRegion, os, version, arch) <==>
            && EqualFold(r.csp, csp) && EqualFold(r.cspRegion, cspRegion) && EqualFold(r.osName, os)
            && EqualFold(r.osVersion, version) && EqualFold(r.architecture, arch)
  {
    var xs, ys := [r.csp, r.cspRegion, r.osName, r.osVersion, r.architecture], [csp, cspRegion, os, version, arch];
    JoinedInjective(xs, ys);
    assert (forall i :: 0 <= i < |xs| ==> EqualFold(xs[i], ys[i])) <==>
           && EqualFold(xs[0], ys[0]) && EqualFold(xs[1], ys[1]) && EqualFold(xs[2], ys[2])
           && EqualFold(xs[3], ys[3]) && EqualFold(xs[4], ys[4]);
  }

  /** The region key keeps the case of the provider token. */
  lemma {:induction false} RegionKeyMeaning(r: RegionRow, csp: string, regionName: string)
    requires BarFree(r.csp) && BarFree(csp)
    ensures KeyOfRegion(r) == RegionKey(csp, regionName) <==>
            r.csp == csp && EqualFold(TrimSpace(r.regionName), TrimSpace(regionName))
  {
    RegionKeyInjective(r.csp, r.regionName, csp, regionName);
  }

  /** What the machine type chosen for a request means to the caller: it is for the request's
      place and architecture, of the size asked for, and least by rank and then name among all
      the rows that are. */
  lemma {:induction false} ChosenSKUMeaning(rows: seq<VMRow>, csp: string, cspRegion: string, arch: string, cpu: int,
        ram: int, best: VMRow)
    requires forall r :: r in rows ==> BarFree(r.csp) && BarFree(r.cspRegion)
    requires BarFree(csp) && BarFree(cspRegion)
    ensures IsChosenSKU(rows, VmRegionArchKey(csp, cspRegion, arch), cpu, ram, best) <==>
            && best in rows && best.cpu == cpu && best.ram == ram
            && EqualFold(best.csp, csp) && EqualFold(best.cspRegion, cspRegion) && EqualFold(best.architecture, arch)
            && forall r | r in rows && r.cpu == cpu && r.ram == ram &&
                          EqualFold(r.csp, csp) && EqualFold(r.cspRegion, cspRegion) && EqualFold(r.architecture, arch)
                 :: FamilyRank(best) < FamilyRank(r) || (FamilyRank(best) == FamilyRank(r) && !Less(r.name, best.name))
  {
    hide KeyOfVM, VmRegionArchKey, EqualFold, BarFree, FamilyRank;
    var k := VmRegionArchKey(csp, cspRegion, arch);
    forall r | r in rows
      ensures SkuMatches(k, cpu, ram, r) <==>
              && r.cpu == cpu && r.ram == ram
              && EqualFold(r.csp, csp) && EqualFold(r.cspRegion, cspRegion) && EqualFold(r.architecture, arch)
    {
      VmKeyMeaning(r, csp, cspRegion, arch);
    }
  }

  /** The same of database classes, least by name: the class chosen is for the engine asked for. */
  lemma {:induction false} ChosenClassMeaning(rows: seq<MDBRow>, csp: string, cspRegion: string, engine: string, cpu: int,
        ram: int, best: MDBRow)
    requires forall r :: r in rows ==> BarFree(r.csp) && BarFree(r.cspRegion)
    requires BarFree(csp) && BarFree(cspRegion)
    ensures IsChosenClass(rows, MdbRegionEngineKey(csp, cspRegion, engine), cpu, ram, best) <==>
            && best in rows && best.cpu == cpu && best.ram == ram
            && EqualFold(best.csp, csp) && EqualFold(best.cspRegion, cspRegion) && EqualFold(best.engine, engine)
            && forall r | r in rows && r.cpu == cpu && r.ram == ram &&
                          EqualFold(r.csp, csp) && EqualFold(r.cspRegion, cspRegion) && EqualFold(r.engine, engine)
                 :: !Less(r.name, best.name)
  {
    hide KeyOfMDB, MdbRegionEngineKey, EqualFold, BarFree;
    var k := MdbRegionEngineKey(csp, cspRegion, engine);
    forall r | r in rows
      ensures ClassMatches(k, cpu, ram, r) <==>
              && r.cpu == cpu && r.ram == ram
              && EqualFold(r.csp, csp) && EqualFold(r.cspRegion, cspRegion) && EqualFold(r.engine, engine)
    {
      MdbKeyMeaning(r, csp, cspRegion, engine);
    }
  }

  /** The general-purpose families come before any other. */
  lemma {:induction false} GeneralPurposeFirst(a: VMRow, b: VMRow)
    requires a.family in {"t3", "t4g", "e2", "Droplet", "standard", "bx2"} && b.family !in PREFERRED_FAMILIES
    ensures Preferred(a, b) && !Preferred(b, a)
  {
  }

  /** The choice does not depend on the order the rows were loaded in: over any two catalogs
      with the same rows the chosen rank and name are the same. */
  lemma {:induction false} SkuChoiceOrderFree(xs: seq<VMRow>, ys: seq<VMRow>, k: string, cpu: int, ram: int,
        x: VMRow, y: VMRow)
    requires multiset(xs) == multiset(ys)
    requires IsChosenSKU(xs, k, cpu, ram, x) && IsChosenSKU(ys, k, cpu, ram, y)
    ensures FamilyRank(x) == FamilyRank(y) && x.name == y.name
  {
    assert x in multiset(ys) && y in multiset(xs);
    LessConnected(x.name, y.name);
  }

  lemma {:induction false} ClassChoiceOrderFree(xs: seq<MDBRow>, ys: seq<MDBRow>, k: string, cpu: int, ram: int,
        x: MDBRow, y: MDBRow)
    requires multiset(xs) == multiset(ys)
    requires IsChosenClass(xs, k, cpu, ram, x) && IsChosenClass(ys, k, cpu, ram, y)
    ensures x.name == y.name
  {
    assert x in multiset(ys) && y in multiset(xs);
    LessConnected(x.name, y.name);
  }

  function VmSize(r: VMRow): Size {
    Size(r.name, r.cpu, r.ram)
  }

  /** The machine types suggested for a missing size: none left out is nearer in its own size,
      nor as near with a smaller name. */
  lemma {:induction false} NearestMachines(candidates: seq<VMRow>, cpu: int, ram: int, n: nat, out: seq<VMRow>, i: nat,
        r: VMRow)
    requires IsNearest(candidates, VmSize, cpu, ram, n, out)
    requires i < |out| && r in multiset(candidates) - multiset(out)
    ensures var taken := 4 * Abs(out[i].cpu - cpu) + Abs(out[i].ram - ram);
            var omitted := 4 * Abs(r.cpu - cpu) + Abs(r.ram - ram);
            taken < omitted || (taken == omitted && !Less(r.name, out[i].name))
  {
    assert !Before(VmSize(r), VmSize(out[i]), cpu, ram);
  }

  lemma {:induction false} PreferredIsOrder(a: VMRow, b: VMRow, c: VMRow)
    ensures !Preferred(a, a)
    ensures !Preferred(b, a) && !Preferred(c, b) ==> !Preferred(c, a)
  {
    LessIrreflexive(a.name);
    if FamilyRank(a) == FamilyRank(b) == FamilyRank(c) && !Less(b.name, a.name) && !Less(c.name, b.name) {
      NotAfterTransitive(a.name, b.name, c.name);
    }
  }

  datatype RegionError = UnknownProvider | RegionNotFound

  class EmbeddedCatalog {
    var byCSPRegion: map<string, RegionRow>
    var rows: seq<RegionRow>
    var vmRows: seq<VMRow>
    var vmByRegionArch: map<string, seq<VMRow>>
    var osByKey: map<string, OSImageRow>
    var mdbRows: seq<MDBRow>
    var mdbByRegionEng: map<string, seq<MDBRow>>
    /** Image rows are indexed without being kept. */
    ghost var osRows: seq<OSImageRow>

    ghost predicate Valid()
      reads this
    {
      && FirstWins(byCSPRegion, rows, KeyOfRegion)
      && Grouped(vmByRegionArch, vmRows, KeyOfVM)
      && LastWins(osByKey, osRows, KeyOfImage)
      && Grouped(mdbByRegionEng, mdbRows, KeyOfMDB)
    }

    ghost function Contents(): Loaded
      reads this
    {
      Loaded(rows, vmRows, osRows, mdbRows)
    }

    constructor Empty()
      ensures Valid() && Contents() == Loaded([], [], [], [])
    {
      rows, vmRows, mdbRows, osRows := [], [], [], [];
      byCSPRegion, vmByRegionArch, osByKey, mdbByRegionEng := map[], map[], map[], map[];
    }

    method AddRegion(r: RegionRow)
      requires Valid()
      modifies this
      ensures Valid() && Contents() == old(Contents()).(regions := old(rows) + [r])
    {
      FirstWinsStep(byCSPRegion, rows, KeyOfRegion, r);
      rows := rows + [r];
      var k := RegionKey(r.csp, r.regionName);
      if k !in byCSPRegion {
        byCSPRegion := byCSPRegion[k := r];
      }
    }

    method AddVM(r: VMRow)
      requires Valid()
      modifies this
      ensures Valid() && Contents() == old(Contents()).(vms := old(vmRows) + [r])
    {
      GroupedStep(vmByRegionArch, vmRows, KeyOfVM, r);
      vmRows := vmRows + [r];
      var k := VmRegionArchKey(r.csp, r.cspRegion, r.architecture);
      vmByRegionArch := vmByRegionArch[k := Group(vmByRegionArch, k) + [r]];
    }

    method AddImage(r: OSImageRow)
      requires Valid()
      modifies this
      ensures Valid() && Contents() == old(Contents()).(images := old(osRows) + [r])
    {
      LastWinsStep(osByKey, osRows, KeyOfImage, r);
      osRows := osRows + [r];
      osByKey := osByKey[OsKey(r.csp, r.cspRegion, r.osName, r.osVersion, r.architecture) := r];
    }

    method AddMDB(r: MDBRow)
      requires Valid()
      modifies this
      ensures Valid() && Contents() == old(Contents()).(mdbs := old(mdbRows) + [r])
    {
      GroupedStep(mdbByRegionEng, mdbRows, KeyOfMDB, r);
      mdbRows := mdbRows + [r];
      var k := MdbRegionEngineKey(r.csp, r.cspRegion, r.engine);
      mdbByRegionEng := mdbByRegionEng[k := Group(mdbByRegionEng, k) + [r]];
    }

    /** What every loader does with a decoded record. */
    method Add(d: Decoded)
      requires Valid() && !d.Malformed?
      modifies this
      ensures Valid() && Contents() == old(Contents()).Plus([d])
    {
      PlusOne(Contents(), d);
      match d {
        case Region(r) => AddRegion(r);
        case VM(r) => AddVM(r);
        case Image(r) => AddImage(r);
        case MDB(r) => AddMDB(r);
        case Skip =>
      }
    }

    /** The record loop of a loader: it stops at the first malformed record. */
    method Fold<T>(decode: T -> Decoded, items: seq<T>) returns (ok: bool)
      requires Valid()
      modifies this
      ensures Valid()
      ensures ok == WellFormed(Decode(decode, items))
      ensures Contents() == old(Contents()).Plus(Accepted(Decode(decode, items)))
    {
      ghost var ds := Decode(decode, items);
      ghost var start := Contents();
      PlusNothing(start);
      for i := 0 to |items|
        invariant Valid() && WellFormed(ds[..i]) && Contents() == start.Plus(ds[..i])
      {
        var d := decode(items[i]);
        assert ds[..i + 1] == ds[..i] + [d];
        if d.Malformed? {
          AcceptedStopsAt(ds, i);
          assert ds[i] in ds;
          return false;
        }
        PlusStep(start, ds[..i], d);
        Add(d);
      }
      assert ds[..|items|] == ds;
      AcceptedOfWellFormed(ds);
      return true;
    }

    /** The loops of loadOVHCatalog over one region. */
    method AddOvhRegion(r: RegionRow, dbs: seq<Flavor>, nodes: seq<Flavor>)
      requires Valid()
      modifies this
      ensures Valid() && Contents() == old(Contents()).Plus([Region(r)] + OvhMdbs(r, dbs) + OvhVMs(r, nodes))
    {
      hide Valid, Loaded.Plus, OvhVMs;
      ghost var start, ds := Contents(), [Region(r)];
      Add(Region(r));
      for j := 0 to |dbs|
        invariant Valid() && Contents() == start.Plus(ds) && ds == [Region(r)] + OvhMdbs(r, dbs[..j])
      {
        var f := dbs[j];
        PlusStep(start, ds, OvhMdb(r, f, POSTGRES));
        PlusStep(start, ds + [OvhMdb(r, f, POSTGRES)], OvhMdb(r, f, MYSQL));
        assert dbs[..j + 1][..j] == dbs[..j];
        Add(OvhMdb(r, f, POSTGRES));
        Add(OvhMdb(r, f, MYSQL));
        ds := ds + [OvhMdb(r, f, POSTGRES)] + [OvhMdb(r, f, MYSQL)];
      }
      assert dbs[..|dbs|] == dbs;
      ghost var before := ds;
      NoVMs(r);
      for j := 0 to |nodes|
        invariant Valid() && Contents() == start.Plus(ds) && ds == before + OvhVMs(r, nodes[..j])
      {
        NextVM(r, nodes, j);
        PlusStep(start, ds, OvhVM(r, nodes[j]));
        Add(OvhVM(r, nodes[j]));
        ds := ds + [OvhVM(r, nodes[j])];
      }
      assert nodes[..|nodes|] == nodes;
    }

    method AddOvh(t: OvhTables)
      requires Valid()
      modifies this
      ensures Valid() && Contents() == old(Contents()).Plus(OvhRows(t.regions, t.dbs, t.nodes))
    {
      hide Valid, OvhMdbs, OvhVMs, Loaded.Plus;
      ghost var start := Contents();
      PlusNothing(start);
      for i := 0 to |t.regions|
        invariant Valid() && Contents() == start.Plus(OvhRows(t.regions[..i], t.dbs, t.nodes))
      {
        var r := t.regions[i];
        assert t.regions[..i + 1][..i] == t.regions[..i];
        AddOvhRegion(r, t.dbs, t.nodes);
        PlusConcat(start, OvhRows(t.regions[..i], t.dbs, t.nodes), [Region(r)] + OvhMdbs(r, t.dbs) + OvhVMs(r, t.nodes));
      }
      assert t.regions[..|t.regions|] == t.regions;
    }

    /** loadOVHCatalog: nothing is added unless the whole snapshot reads. */
    method LoadOvh(records: seq<seq<string>>) returns (ok: bool)
      requires Valid()
      modifies this
      ensures Valid()
      ensures ok == WellFormed(Ovh(records).Decoding())
      ensures Contents() == old(Contents()).Plus(Accepted(Ovh(records).Decoding()))
    {
      hide OvhReadable, OvhTablesOf;
      var tables := ParseOvh(records);
      RefusedWhole(Contents());
      if tables.None? {
        return false;
      }
      OvhRowsWellFormed(tables.value);
      AcceptedOfWellFormed(OvhRows(tables.value.regions, tables.value.dbs, tables.value.nodes));
      AddOvh(tables.value);
      ok := true;
    }

    method Load(s: Snapshot) returns (ok: bool)
      requires Valid()
      modifies this
      ensures Valid()
      ensures ok == WellFormed(s.Decoding())
      ensures Contents() == old(Contents()).Plus(Accepted(s.Decoding()))
    {
      hide Valid, Loaded.Plus, Accepted, ManifestOk;
      RefusedWhole(Contents());
      match s {
        case Base(section, table) =>
          if table == [] {
            return false;
          }
          ok := Fold((rec: seq<string>) => SectionRecord((section, rec)), table[1..]);
        case Headed(csp, lines) => ok := Fold((l: string) => HeadedLine(csp, l), lines);
        case Linode(records) => ok := Fold(LinodeRecord, records);
        case Oracle(records) => ok := Fold(OracleRecord, records);
        case Ovh(records) => ok := LoadOvh(records);
        case Sections(items) => ok := Fold(SectionRecord, items);
        case Adapter(manifest, tail, lines) =>
          if tail && lines == [""] {
            return false;
          }
          if !ManifestOk(manifest) {
            return false;
          }
          ok := Fold((l: string) => AdapterLine(manifest.csp, l), lines);
        case Provenance(text) => {
          return TrimSpace(text) != "";
        }
      }
    }

    /** NewEmbedded: the base tables, then one loader after another, stopping at the first
        failure. Whatever the sequence of loaders, the indexes stay exact. */
    method LoadAll(snapshots: seq<Snapshot>) returns (ok: bool)
      requires Valid()
      modifies this
      ensures Valid()
      ensures ok <==> AllWellFormed(snapshots, |snapshots|)
      ensures ok ==> Contents() == AfterAll(old(Contents()), snapshots)
    {
      ghost var start := Contents();
      for i := 0 to |snapshots|
        invariant Valid() && Contents() == AfterAll(start, snapshots[..i])
        invariant AllWellFormed(snapshots, i)
      {
        AfterAllStep(start, snapshots, i);
        ok := Load(snapshots[i]);
        if !ok {
          return;
        }
        AcceptedOfWellFormed(snapshots[i].Decoding());
      }
      assert snapshots[..|snapshots|] == snapshots;
      return true;
    }

    method ResolveRegion(regionName: string, provider: string) returns (r: Result<RegionRow, RegionError>)
      requires Valid()
      ensures r == Err(UnknownProvider) <==> ProviderToCSP(provider).None?
      ensures ProviderToCSP(provider).Some? ==>
                var k := RegionKey(ProviderToCSP(provider).value, regionName);
                && (r.Ok? <==> exists row :: row in rows && KeyOfRegion(row) == k)
                && (r.Ok? ==> exists i :: 0 <= i < |rows| && rows[i] == r.value && KeyOfRegion(rows[i]) == k &&
                                forall j :: 0 <= j < i ==> KeyOfRegion(rows[j]) != k)
    {
      var csp := ProviderToCSP(provider);
      if csp.None? {
        return Err(UnknownProvider);
      }
      var k := RegionKey(csp.value, regionName);
      ghost var selected := Select(rows, KeyOfRegion, k);
      forall row ensures row in selected <==> row in rows && KeyOfRegion(row) == k {
        SelectMembers(rows, KeyOfRegion, k, row);
      }
      if k !in byCSPRegion {
        return Err(RegionNotFound);
      }
      assert selected[0] in selected;
      var i := SelectFirst(rows, KeyOfRegion, k);
      return Ok(byCSPRegion[k]);
    }

    /** Through the index or by scanning all rows: the same rows match, and the one chosen is
        preferred to by none. A failure suggests the five nearest sizes of the same key. */
    method ResolveSKU(csp: string, cspRegion: string, arch: string, cpu: int, ram: int)
        returns (r: Result<VMRow, seq<VMRow>>)
      requires Valid()
      ensures var k := VmRegionArchKey(csp, cspRegion, arch);
              && (r.Ok? <==> exists row :: row in vmRows && SkuMatches(k, cpu, ram, row))
              && (r.Ok? ==> IsChosenSKU(vmRows, k, cpu, ram, r.value))
              && (r.Err? ==> IsNearest(Select(vmRows, KeyOfVM, k), VmSize, cpu, ram, 5, r.error))
    {
      var k := VmRegionArchKey(csp, cspRegion, arch);
      var candidates := Group(vmByRegionArch, k);
      GroupIsSelect(vmByRegionArch, vmRows, KeyOfVM, k);
      forall row ensures row in candidates <==> row in vmRows && KeyOfVM(row) == k {
        SelectMembers(vmRows, KeyOfVM, k, row);
      }
      var exact := Exact(candidates, VmSize, cpu, ram);
      if |exact| > 0 {
        var best := BestSKU(exact);
        return Ok(best);
      }
      var nearest := Nearest(candidates, VmSize, cpu, ram, 5);
      return Err(nearest);
    }

    method ResolveDBClass(csp: string, cspRegion: string, engine: string, cpu: int, ram: int)
        returns (r: Result<MDBRow, seq<MDBRow>>)
      requires Valid()
      ensures var k := MdbRegionEngineKey(csp, cspRegion, engine);
              && (r.Ok? <==> exists row :: row in mdbRows && ClassMatches(k, cpu, ram, row))
              && (r.Ok? ==> IsChosenClass(mdbRows, k, cpu, ram, r.value))
              && (r.Err? ==> IsNearest(Select(mdbRows, KeyOfMDB, k), SizeOf, cpu, ram, 5, r.error))
    {
      var k := MdbRegionEngineKey(csp, cspRegion, engine);
      var candidates := Group(mdbByRegionEng, k);
      GroupIsSelect(mdbByRegionEng, mdbRows, KeyOfMDB, k);
      forall row ensures row in candidates <==> row in mdbRows && KeyOfMDB(row) == k {
        SelectMembers(mdbRows, KeyOfMDB, k, row);
      }
      var exact := Exact(candidates, SizeOf, cpu, ram);
      if |exact| > 0 {
        var best := BestClass(exact);
        return Ok(best);
      }
      var nearest := NearestDBSizes(candidates, cpu, ram, 5);
      return Err(nearest);
    }

    method ResolveImage(csp: string, cspRegion: string, os: string, version: string, arch: string)
        returns (r: Option<OSImageRow>)
      requires Valid()
      ensures var k := OsKey(csp, cspRegion, os, version, arch);
              && (r.Some? <==> exists row :: row in osRows && KeyOfImage(row) == k)
              && (r.Some? ==> exists i :: 0 <= i < |osRows| && osRows[i] == r.value && KeyOfImage(osRows[i]) == k &&
                                forall j :: i < j < |osRows| ==> KeyOfImage(osRows[j]) != k)
    {
      var k := OsKey(csp, cspRegion, os, version, arch);
      ghost var selected := Select(osRows, KeyOfImage, k);
      forall row ensures row in selected <==> row in osRows && KeyOfImage(row) == k {
        SelectMembers(osRows, KeyOfImage, k, row);
      }
      if k !in osByKey {
        return None;
      }
      assert selected[0] in selected;
      var i := SelectLast(osRows, KeyOfImage, k);
      return Some(osByKey[k]);
    }
  }

  lemma {:induction false} PlusOne(l: Loaded, d: Decoded)
    ensures l.Plus([d]) == match d
                           case Region(r) => l.(regions := l.regions + [r])
                           case VM(r) => l.(vms := l.vms + [r])
                           case Image(r) => l.(images := l.images + [r])
                           case MDB(r) => l.(mdbs := l.mdbs + [r])
                           case _ => l
  {
    assert [d][..0] == [];
    assert Regions([d]) == (match d case Region(r) => [r] case _ => []);
    assert VMs([d]) == (match d case VM(r) => [r] case _ => []);
    assert Images([d]) == (match d case Image(r) => [r] case _ => []);
    assert MDBs([d]) == (match d case MDB(r) => [r] case _ => []);
    assert l.regions + [] == l.regions && l.vms + [] == l.vms && l.images + [] == l.images && l.mdbs + [] == l.mdbs;
  }

  lemma {:induction false} PlusConcat(l: Loaded, xs: seq<Decoded>, ys: seq<Decoded>)
    ensures l.Plus(xs + ys) == l.Plus(xs).Plus(ys)
  {
    if ys == [] {
      assert xs + ys == xs;
      PlusNothing(l.Plus(xs));
    } else {
      var init, d := ys[..|ys| - 1], ys[|ys| - 1];
      PlusConcat(l, xs, init);
      PlusStep(l, xs + init, d);
      PlusStep(l.Plus(xs), init, d);
      assert xs + ys == (xs + init) + [d] && ys == init + [d];
    }
  }

  /** A file refused as a whole leaves the contents alone. */
  lemma {:induction false} RefusedWhole(l: Loaded)
    ensures !WellFormed([Malformed]) && WellFormed([])
    ensures l.Plus(Accepted([Malformed])) == l && l.Plus(Accepted([])) == l
  {
    assert Malformed in [Malformed];
    PlusNothing(l);
  }

  lemma {:induction false} OvhRowsWellFormed(t: OvhTables)
    ensures WellFormed(OvhRows(t.regions, t.dbs, t.nodes))
  {
    OvhRowsExact(t.regions, t.dbs, t.nodes, Malformed);
  }

  lemma {:induction false} NoVMs(r: RegionRow)
    ensures OvhVMs(r, []) == []
  {
  }

  lemma {:induction false} NextVM(r: RegionRow, nodes: seq<Flavor>, j: nat)
    requires j < |nodes|
    ensures OvhVMs(r, nodes[..j + 1]) == OvhVMs(r, nodes[..j]) + [OvhVM(r, nodes[j])]
  {
  }

  lemma {:induction false} PlusNothing(l: Loaded)
    ensures l.Plus([]) == l
  {
    assert l.regions + [] == l.regions && l.vms + [] == l.vms && l.images + [] == l.images && l.mdbs + [] == l.mdbs;
  }

  /** The rows after a sequence of well-formed snapshots: each one's rows, in order. */
  function AfterAll(start: Loaded, snapshots: seq<Snapshot>): Loaded {
    if snapshots == [] then start
    else AfterAll(start, snapshots[..|snapshots| - 1]).Plus(snapshots[|snapshots| - 1].Decoding())
  }

  /** The loop that keeps the rows of exactly the requested size. */
  method Exact<R(==)>(candidates: seq<R>, size: R -> Size, cpu: int, ram: int) returns (exact: seq<R>)
    ensures forall row :: row in exact <==> row in candidates && size(row).cpu == cpu && size(row).ram == ram
  {
    exact := [];
    for i := 0 to |candidates|
      invariant forall row :: row in exact <==> row in candidates[..i] && size(row).cpu == cpu && size(row).ram == ram
    {
      assert candidates[..i + 1] == candidates[..i] + [candidates[i]];
      if size(candidates[i]).cpu == cpu && size(candidates[i]).ram == ram {
        exact := exact + [candidates[i]];
      }
    }
    assert candidates[..|candidates|] == candidates;
  }

  lemma {:induction false} AfterAllStep(start: Loaded, snapshots: seq<Snapshot>, i: nat)
    requires i < |snapshots|
    ensures AfterAll(start, snapshots[..i + 1]) == AfterAll(start, snapshots[..i]).Plus(snapshots[i].Decoding())
  {
    assert snapshots[..i + 1][..i] == snapshots[..i];
  }

  predicate AllWellFormed(snapshots: seq<Snapshot>, n: nat)
    requires n <= |snapshots|
  {
    forall i :: 0 <= i < n ==> WellFormed(snapshots[i].Decoding())
  }

  /** The argmin loop over (rank, name). */
  method BestSKU(exact: seq<VMRow>) returns (best: VMRow)
    requires exact != []
    ensures best in exact && forall r :: r in exact ==> !Preferred(r, best)
  {
    best := exact[0];
    var bestRank := FamilyRank(best);
    PreferredIsOrder(best, best, best);
    for i := 1 to |exact|
      invariant best in exact && bestRank == FamilyRank(best)
      invariant forall j :: 0 <= j < i ==> !Preferred(exact[j], best)
    {
      var r := exact[i];
      var rank := FamilyRank(r);
      if rank < bestRank || (rank == bestRank && Less(r.name, best.name)) {
        forall j | 0 <= j <= i ensures !Preferred(exact[j], r) {
          PreferredIsOrder(r, best, exact[j]);
          if Preferred(best, r) {
            LessAsymmetric(r.name, best.name);
          }
        }
        best := r;
        bestRank := rank;
      }
    }
  }

  /** The argmin loop over names. */
  method BestClass(exact: seq<MDBRow>) returns (best: MDBRow)
    requires exact != []
    ensures best in exact && forall r :: r in exact ==> !Less(r.name, best.name)
  {
    best := exact[0];
    LessIrreflexive(best.name);
    for i := 1 to |exact|
      invariant best in exact
      invariant forall j :: 0 <= j < i ==> !Less(exact[j].name, best.name)
    {
      var r := exact[i];
      if Less(r.name, best.name) {
        LessAsymmetric(r.name, best.name);
        LessIrreflexive(r.name);
        forall j | 0 <= j < i ensures !Less(exact[j].name, r.name) {
          NotAfterTransitive(r.name, best.name, exact[j].name);
        }
        best := r;
      }
    }
  }
}

/**
 The text pipeline of Prepare: the field scans over `qemu-img info` output and the
 command lines built from what they find.
 */
module QemuInfo {
  import opened Common
  import opened Text

  /** The names of the fields that the scans look for. */
  datatype FieldNames = FieldNames(backingFile: string, virtualSize: string, fileFormat: string) {
    predicate Distinct() {
      backingFile != virtualSize && backingFile != fileFormat && virtualSize != fileFormat
    }

    predicate WellFormed() {
      Distinct() && PlainName(backingFile) && PlainName(fileFormat) && PlainName(virtualSize)
    }
  }

  predicate PlainName(name: string) {
    name != "" && !IsSpace(name[0]) && ':' !in name && '(' !in name && '\n' !in name
  }

  const QEMU_FIELDS := FieldNames("backing file", "virtual size", "file format")

  // "create -f %s -o backing_file=%s,backing_fmt=%s %s" and "resize %s %s", cut at their verbs
  const CREATE_PIECES := ["create -f ", " -o backing_file=", ",backing_fmt=", " ", ""]
  const RESIZE_PIECES := ["resize ", " ", ""]

  // ----- lines -----

  /** The trimmed text before the first ": ". */
  function FieldOf(line: string): Option<string> {
    var t := TrimSpace(line);
    var i := Index(t, ": ");
    if i == -1 then None else Some(t[..i])
  }

  predicate Carries(line: string, field: string) {
    FieldOf(line) == Some(field)
  }

  /** The text after the first ": ", up to the second one if there is one. */
  function Value(line: string): string {
    var t := TrimSpace(line);
    var i := Index(t, ": ");
    if i == -1 then ""
    else
      var rest := t[i + 2..];
      if Contains(rest, ": ") then rest[..Index(rest, ": ")] else rest
  }

  /** The test and the two pieces that the loops use. */
  lemma PiecesOfLine(line: string, field: string)
    ensures var pieces := Split(TrimSpace(line), ": ");
      && (|pieces| > 1 && pieces[0] == field <==> Carries(line, field))
      && (|pieces| > 1 ==> pieces[1] == Value(line))
  {
  }

  /** What each line contributes to a scan for the field. */
  function Hits(lines: seq<string>, field: string): seq<Option<string>> {
    seq(|lines|, i requires 0 <= i < |lines| => if Carries(lines[i], field) then Some(Value(lines[i])) else None)
  }

  /** The last hit, else the old value. */
  function LastHit(hits: seq<Option<string>>, old_: string): string {
    if hits == [] then old_
    else if hits[|hits| - 1].Some? then hits[|hits| - 1].value
    else LastHit(hits[..|hits| - 1], old_)
  }

  lemma {:induction false} LastHitIsLast(hits: seq<Option<string>>, old_: string, k: nat)
    requires k < |hits| && hits[k].Some? && forall j | k < j < |hits| :: hits[j].None?
    ensures LastHit(hits, old_) == hits[k].value
  {
    if k < |hits| - 1 {
      LastHitIsLast(hits[..|hits| - 1], old_, k);
    }
  }

  lemma {:induction false} NoHit(hits: seq<Option<string>>, old_: string)
    requires forall j | 0 <= j < |hits| :: hits[j].None?
    ensures LastHit(hits, old_) == old_
  {
    if hits != [] {
      NoHit(hits[..|hits| - 1], old_);
    }
  }

  lemma {:induction false} LastHitNext(hits: seq<Option<string>>, old_: string, i: nat)
    requires i < |hits|
    ensures LastHit(hits[..i + 1], old_) == if hits[i].Some? then hits[i].value else LastHit(hits[..i], old_)
  {
    assert hits[..i + 1][..i] == hits[..i];
  }

  /** What a scan of the output leaves in its variable. */
  function Scanned(output: string, field: string, old_: string): string {
    LastHit(Hits(Split(output, "\n"), field), old_)
  }

  ghost predicate LastCarrier(lines: seq<string>, field: string, k: nat) {
    k < |lines| && Carries(lines[k], field) && forall j | k < j < |lines| :: !Carries(lines[j], field)
  }

  /** A scan yields the value of the last line that carries the field, or the old value if no line does. */
  lemma {:induction false} ScanYieldsLastCarrier(lines: seq<string>, field: string, old_: string)
    ensures
      || (exists k: nat :: LastCarrier(lines, field, k) && LastHit(Hits(lines, field), old_) == Value(lines[k]))
      || ((forall k | 0 <= k < |lines| :: !Carries(lines[k], field)) && LastHit(Hits(lines, field), old_) == old_)
  {
    var hits := Hits(lines, field);
    if exists k :: 0 <= k < |hits| && hits[k].Some? {
      var last := LastSome(hits);
      LastHitIsLast(hits, old_, last);
      forall j | last < j < |lines| ensures !Carries(lines[j], field) {
        assert hits[j].None?;
      }
      assert LastCarrier(lines, field, last);
    } else {
      NoHit(hits, old_);
      forall k | 0 <= k < |lines| ensures !Carries(lines[k], field) {
        assert hits[k].None?;
      }
    }
  }

  lemma {:induction false} LastSome(hits: seq<Option<string>>) returns (last: nat)
    requires exists k :: 0 <= k < |hits| && hits[k].Some?
    ensures last < |hits| && hits[last].Some? && forall j | last < j < |hits| :: hits[j].None?
    decreases |hits|
  {
    last := |hits| - 1;
    if hits[last].None? {
      assert forall k | 0 <= k < |hits| && hits[k].Some? :: hits[..last][k].Some?;
      last := LastSome(hits[..last]);
    }
  }

  /** The backing-file and file-format scans. */
  method Scan(output: string, field: string, old_: string) returns (value: string)
    ensures value == Scanned(output, field, old_)
  {
    value := old_;
    var lines := Split(output, "\n");
    ghost var hits := Hits(lines, field);
    for i := 0 to |lines|
      invariant value == LastHit(hits[..i], old_)
    {
      var pieces := Split(TrimSpace(lines[i]), ": ");
      PiecesOfLine(lines[i], field);
      LastHitNext(hits, old_, i);
      if |pieces| > 1 {
        if pieces[0] == field {
          value := pieces[1];
        }
      }
    }
    assert hits[..|lines|] == hits;
  }

  // ----- the scan of the disk to be recreated -----

  /** The text between the first "(" of the untrimmed line and the next blank or "("; no "(" is an index panic. */
  function ByteSize(line: string): Option<string> {
    var i := Index(line, "(");
    if i == -1 then None
    else
      var rest := line[i + 1..];
      var inner := if Contains(rest, "(") then rest[..Index(rest, "(")] else rest;
      Some(if Contains(inner, " ") then inner[..Index(inner, " ")] else inner)
  }

  lemma {:induction false} PiecesOfSize(line: string)
    ensures var byParen := Split(line, "(");
      && (|byParen| > 1 <==> ByteSize(line).Some?)
      && (|byParen| > 1 ==> Split(byParen[1], " ")[0] == ByteSize(line).value)
  {
  }

  /** A "virtual size" line that the loop can read. */
  predicate Readable(line: string, names: FieldNames) {
    Carries(line, names.virtualSize) ==> ByteSize(line).Some?
  }

  function SizeHits(lines: seq<string>, names: FieldNames): seq<Option<string>> {
    seq(|lines|, i requires 0 <= i < |lines| =>
      if Carries(lines[i], names.virtualSize) then ByteSize(lines[i]) else None)
  }

  datatype DiskScan = DiskScan(backingFile: string, size: string, format: string)

  /** The variables after one line, or None for the panic. */
  function AfterLine(line: string, names: FieldNames, old_: DiskScan): Option<DiskScan> {
    if !Readable(line, names) then None
    else Some(DiskScan(
      if Carries(line, names.backingFile) then Value(line) else old_.backingFile,
      if Carries(line, names.virtualSize) then ByteSize(line).value else old_.size,
      if Carries(line, names.fileFormat) then Value(line) else old_.format))
  }

  function AfterLines(lines: seq<string>, names: FieldNames, old_: DiskScan): Option<DiskScan> {
    if lines == [] then Some(old_)
    else
      var before := AfterLines(lines[..|lines| - 1], names, old_);
      if before.None? then None else AfterLine(lines[|lines| - 1], names, before.value)
  }

  lemma {:induction false} PanicStays(lines: seq<string>, names: FieldNames, old_: DiskScan, k: nat)
    requires k <= |lines| && AfterLines(lines[..k], names, old_).None?
    ensures AfterLines(lines, names, old_).None?
  {
    if k < |lines| {
      assert lines[..|lines| - 1][..k] == lines[..k];
      PanicStays(lines[..|lines| - 1], names, old_, k);
    } else {
      assert lines[..k] == lines;
    }
  }

  /**
   The loop panics exactly when some "virtual size" line has no "("; otherwise each
   of its three variables is the result of a scan of its own.
   */
  lemma {:induction false} LoopIsThreeScans(lines: seq<string>, names: FieldNames, old_: DiskScan)
    ensures AfterLines(lines, names, old_).Some? <==> AllReadable(lines, names)
    ensures AfterLines(lines, names, old_).Some? ==>
      AfterLines(lines, names, old_).value == DiskScan(
        LastHit(Hits(lines, names.backingFile), old_.backingFile),
        LastHit(SizeHits(lines, names), old_.size),
        LastHit(Hits(lines, names.fileFormat), old_.format))
  {
    if lines != [] {
      var init := lines[..|lines| - 1];
      LoopIsThreeScans(init, names, old_);
      ReadableInit(lines, names);
      if Readable(lines[|lines| - 1], names) {
        HitsInit(lines, names.backingFile, old_.backingFile);
        HitsInit(lines, names.fileFormat, old_.format);
        SizeHitsInit(lines, names, old_.size);
      }
    }
  }

  lemma {:induction false} HitsInit(lines: seq<string>, field: string, old_: string)
    requires lines != []
    ensures var line := lines[|lines| - 1];
      LastHit(Hits(lines, field), old_) ==
        if Carries(line, field) then Value(line) else LastHit(Hits(lines[..|lines| - 1], field), old_)
  {
    assert Hits(lines, field)[..|lines| - 1] == Hits(lines[..|lines| - 1], field);
  }

  lemma {:induction false} SizeHitsInit(lines: seq<string>, names: FieldNames, old_: string)
    requires lines != [] && Readable(lines[|lines| - 1], names)
    ensures var line := lines[|lines| - 1];
      LastHit(SizeHits(lines, names), old_) ==
        if Carries(line, names.virtualSize) then ByteSize(line).value
        else LastHit(SizeHits(lines[..|lines| - 1], names), old_)
  {
    assert SizeHits(lines, names)[..|lines| - 1] == SizeHits(lines[..|lines| - 1], names);
  }

  ghost predicate AllReadable(lines: seq<string>, names: FieldNames) {
    forall k | 0 <= k < |lines| :: Readable(lines[k], names)
  }

  lemma ReadableInit(lines: seq<string>, names: FieldNames)
    requires lines != []
    ensures AllReadable(lines, names) <==>
      AllReadable(lines[..|lines| - 1], names) && Readable(lines[|lines| - 1], names)
  {
  }

  method ScanDiskLine(line: string, names: FieldNames, old_: DiskScan) returns (scan: Option<DiskScan>)
    requires names.Distinct()
    ensures scan == AfterLine(line, names, old_)
  {
    var pieces := Split(TrimSpace(line), ": ");
    PiecesOfLine(line, names.backingFile);
    PiecesOfLine(line, names.virtualSize);
    PiecesOfLine(line, names.fileFormat);
    scan := Some(old_);
    if |pieces| > 1 {
      if pieces[0] == names.backingFile {
        scan := Some(old_.(backingFile := pieces[1]));
      } else if pieces[0] == names.virtualSize {
        PiecesOfSize(line);
        var byParen := Split(line, "(");
        scan := if |byParen| < 2 then None else Some(old_.(size := Split(byParen[1], " ")[0]));
      } else if pieces[0] == names.fileFormat {
        scan := Some(old_.(format := pieces[1]));
      }
    }
  }

  method ScanDisk(output: string, names: FieldNames, old_: DiskScan) returns (scan: Option<DiskScan>)
    requires names.Distinct()
    ensures scan == AfterLines(Split(output, "\n"), names, old_)
  {
    var lines := Split(output, "\n");
    var found := old_;
    for i := 0 to |lines|
      invariant AfterLines(lines[..i], names, old_) == Some(found)
    {
      var next := ScanDiskLine(lines[i], names, found);
      assert lines[..i + 1][..i] == lines[..i];
      if next.None? {
        PanicStays(lines, names, old_, i + 1);
        return None;
      }
      found := next.value;
    }
    assert lines[..|lines|] == lines;
    scan := Some(found);
  }

  // ----- command lines -----

  function CreateArgs(format: string, backingFile: string, backingFormat: string, vmPath: string): seq<string> {
    Fields(Sprintf(Join(CREATE_PIECES, "%s"), [format, backingFile, backingFormat, vmPath]))
  }

  function ResizeArgs(vmPath: string, size: string): seq<string> {
    Fields(Sprintf(Join(RESIZE_PIECES, "%s"), [vmPath, size]))
  }

  function IntendedCreate(format: string, backingFile: string, backingFormat: string, vmPath: string): seq<string> {
    ["create", "-f", format, "-o", "backing_file=" + backingFile + ",backing_fmt=" + backingFormat, vmPath]
  }

  /** The pieces are the templates of the source, verb by verb. */
  lemma TemplatesAreTheConstants()
    ensures Join(CREATE_PIECES, "%s") == "create -f %s" + (" -o backing_file=%s" + (",backing_fmt=%s" + " %s"))
    ensures Join(RESIZE_PIECES, "%s") == "resize %s" + " %s"
  {
    JoinStep(" ", [""], "%s");
    JoinStep(",backing_fmt=", [" ", ""], "%s");
    JoinStep(" -o backing_file=", [",backing_fmt=", " ", ""], "%s");
    JoinStep("create -f ", [" -o backing_file=", ",backing_fmt=", " ", ""], "%s");
    JoinStep("resize ", [" ", ""], "%s");
    Verbs();
  }

  lemma Verbs()
    ensures " " + "%s" + "" == " %s" && "resize " + "%s" == "resize %s" && "create -f " + "%s" == "create -f %s"
    ensures ",backing_fmt=" + "%s" == ",backing_fmt=%s" && " -o backing_file=" + "%s" == " -o backing_file=%s"
  {
  }

  lemma {:induction false} JoinStep(part: string, parts: seq<string>, sep: string)
    requires parts != []
    ensures Join([part] + parts, sep) == part + sep + Join(parts, sep)
  {
    assert ([part] + parts)[1..] == parts;
  }

  lemma {:induction false} WeaveCons(p: string, pieces: seq<string>, a: string, args: seq<string>)
    requires |pieces| == |args| + 1
    ensures Weave([p] + pieces, [a] + args) == p + a + Weave(pieces, args)
  {
    assert ([p] + pieces)[1..] == pieces && ([a] + args)[1..] == args;
  }

  lemma CreateLine(format: string, backingFile: string, backingFormat: string, vmPath: string)
    ensures Sprintf(Join(CREATE_PIECES, "%s"), [format, backingFile, backingFormat, vmPath])
         == Join(IntendedCreate(format, backingFile, backingFormat, vmPath), " ")
  {
    SprintfWeaves(CREATE_PIECES, [format, backingFile, backingFormat, vmPath]);
    var option := "backing_file=" + backingFile + ",backing_fmt=" + backingFormat;
    var tail := Join([option, vmPath], " ");
    CreateTail(backingFile, backingFormat, vmPath);
    WeaveCons("create -f ", [" -o backing_file=", ",backing_fmt=", " ", ""], format,
        [backingFile, backingFormat, vmPath]);
    JoinStep("-o", [option, vmPath], " ");
    JoinStep(format, ["-o", option, vmPath], " ");
    JoinStep("-f", [format, "-o", option, vmPath], " ");
    JoinStep("create", ["-f", format, "-o", option, vmPath], " ");
    Regroup("create", "-f", format, "-o", tail);
    assert "create" + " " + "-f" + " " == "create -f ";
    assert " " + "-o" + " " == " -o ";
  }

  lemma Regroup(a: string, b: string, c: string, d: string, tail: string)
    ensures (a + " " + b + " ") + c + ((" " + d + " ") + tail) == a + " " + (b + " " + (c + " " + (d + " " + tail)))
  {
  }

  lemma CreateTail(backingFile: string, backingFormat: string, vmPath: string)
    ensures Weave([" -o backing_file=", ",backing_fmt=", " ", ""], [backingFile, backingFormat, vmPath])
         == " -o " + Join(["backing_file=" + backingFile + ",backing_fmt=" + backingFormat, vmPath], " ")
  {
    var option := "backing_file=" + backingFile + ",backing_fmt=" + backingFormat;
    WeaveCons(" -o backing_file=", [",backing_fmt=", " ", ""], backingFile, [backingFormat, vmPath]);
    WeaveCons(",backing_fmt=", [" ", ""], backingFormat, [vmPath]);
    WeaveCons(" ", [""], vmPath, []);
    JoinStep(option, [vmPath], " ");
    assert " -o backing_file=" + backingFile + (",backing_fmt=" + backingFormat + (" " + vmPath + ""))
        == " -o " + (option + " " + vmPath);
  }

  lemma ResizeLine(vmPath: string, size: string)
    ensures Sprintf(Join(RESIZE_PIECES, "%s"), [vmPath, size]) == Join(["resize", vmPath, size], " ")
  {
    SprintfWeaves(RESIZE_PIECES, [vmPath, size]);
    WeaveCons("resize ", [" ", ""], vmPath, [size]);
    WeaveCons(" ", [""], size, []);
    JoinStep(vmPath, [size], " ");
    JoinStep("resize", [vmPath, size], " ");
    assert "resize " + vmPath + (" " + size + "") == "resize" + " " + (vmPath + " " + size);
  }

  /**
   The create command gets its six arguments if and only if the format and the VM
   path are single words and the backing file and its format hold no white space.
   */
  lemma CreateArgsAreIntended(format: string, backingFile: string, backingFormat: string, vmPath: string)
    ensures CreateArgs(format, backingFile, backingFormat, vmPath)
      == IntendedCreate(format, backingFile, backingFormat, vmPath)
      <==> IsToken(format) && IsToken(vmPath) && (forall c | c in backingFile + backingFormat :: !IsSpace(c))
  {
    var option := "backing_file=" + backingFile + ",backing_fmt=" + backingFormat;
    CreateLine(format, backingFile, backingFormat, vmPath);
    LiteralTokens();
    SixWords("create", "-f", format, "-o", option, vmPath);
    OptionToken("backing_file=", backingFile, ",backing_fmt=", backingFormat);
  }

  lemma LiteralTokens()
    ensures IsToken("create") && IsToken("-f") && IsToken("-o")
    ensures IsToken("backing_file=") && IsToken(",backing_fmt=")
  {
    PrintableToken("create");
    PrintableToken("-f");
    PrintableToken("-o");
    PrintableToken("backing_file=");
    PrintableToken(",backing_fmt=");
  }

  lemma PrintableToken(s: string)
    requires s != "" && forall i | 0 <= i < |s| :: '!' <= s[i] <= '~'
    ensures IsToken(s)
  {
    forall c | c in s ensures !IsSpace(c) {
      assert '!' <= c <= '~';
    }
  }

  lemma SixWords(a: string, b: string, c: string, d: string, e: string, f: string)
    requires IsToken(a) && IsToken(b) && IsToken(d)
    ensures Fields(Join([a, b, c, d, e, f], " ")) == [a, b, c, d, e, f] <==> IsToken(c) && IsToken(e) && IsToken(f)
  {
    FieldsUndoJoin([a, b, c, d, e, f]);
    SixTokens(a, b, c, d, e, f);
  }

  lemma SixTokens(a: string, b: string, c: string, d: string, e: string, f: string)
    ensures (forall w | w in [a, b, c, d, e, f] :: IsToken(w)) <==>
      IsToken(a) && IsToken(b) && IsToken(c) && IsToken(d) && IsToken(e) && IsToken(f)
  {
    var words := [a, b, c, d, e, f];
    assert words[0] in words && words[1] in words && words[2] in words;
    assert words[3] in words && words[4] in words && words[5] in words;
  }

  lemma OptionToken(p: string, x: string, q: string, y: string)
    requires IsToken(p) && IsToken(q)
    ensures IsToken(p + x + q + y) <==> forall c | c in x + y :: !IsSpace(c)
  {
    var option := p + x + q + y;
    assert forall c :: c in option <==> c in p || c in q || c in x + y;
  }

  /** The resize command gets its three arguments if and only if path and size are single words. */
  lemma ResizeArgsAreIntended(vmPath: string, size: string)
    ensures ResizeArgs(vmPath, size) == ["resize", vmPath, size] <==> IsToken(vmPath) && IsToken(size)
  {
    ResizeLine(vmPath, size);
    PrintableToken("resize");
    ThreeWords("resize", vmPath, size);
  }

  lemma ThreeWords(a: string, b: string, c: string)
    requires IsToken(a)
    ensures Fields(Join([a, b, c], " ")) == [a, b, c] <==> IsToken(b) && IsToken(c)
  {
    FieldsUndoJoin([a, b, c]);
    ThreeTokens(a, b, c);
  }

  lemma ThreeTokens(a: string, b: string, c: string)
    ensures (forall w | w in [a, b, c] :: IsToken(w)) <==> IsToken(a) && IsToken(b) && IsToken(c)
  {
    var words := [a, b, c];
    assert words[0] in words && words[1] in words && words[2] in words;
  }

  // ----- from the info text to the arguments -----

  /** "file format: F" and the like. */
  function FieldLine(field: string, value: string): string {
    field + ": " + value
  }

  /** "virtual size: 20 GiB (21474836480 bytes)" */
  function SizeLine(field: string, human: string, bytes: string): string {
    FieldLine(field, human + " (" + bytes + " bytes)")
  }

  lemma AlreadyTrimmed(s: string)
    requires s != "" && !IsSpace(s[0]) && !IsSpace(s[|s| - 1])
    ensures TrimSpace(s) == s
  {
  }

  lemma {:induction false} NoSeparator(s: string, c: char, sep: string)
    requires c !in s && sep != "" && sep[0] == c
    ensures Index(s, sep) == -1
  {
    forall i ensures !Occurs(s, sep, i) {
      assert 0 <= i <= |s| - |sep| ==> s[i..i + |sep|][0] == s[i];
    }
  }

  lemma {:induction false} FirstSeparator(a: string, sep: string, b: string)
    requires sep != "" && sep[0] !in a
    ensures Index(a + sep + b, sep) == |a|
  {
    var s := a + sep + b;
    assert s[|a|..|a| + |sep|] == sep;
    forall j | 0 <= j < |a| ensures !Occurs(s, sep, j) {
      assert s[j] == a[j];
      assert j <= |s| - |sep| ==> s[j..j + |sep|][0] == s[j];
    }
    IndexIs(s, sep, |a|);
  }

  lemma FieldLineCarries(field: string, value: string)
    requires field != "" && !IsSpace(field[0]) && ':' !in field
    requires value != "" && !IsSpace(value[|value| - 1])
    ensures Carries(FieldLine(field, value), field)
    ensures ' ' !in value ==> Value(FieldLine(field, value)) == value
  {
    var line := FieldLine(field, value);
    AlreadyTrimmed(line);
    FirstSeparator(field, ": ", value);
    assert line[..|field|] == field && line[|field| + 2..] == value;
    if ' ' !in value {
      forall i ensures !Occurs(value, ": ", i) {
        assert 0 <= i <= |value| - 2 ==> value[i..i + 2][1] == value[i + 1];
      }
    }
  }

  lemma SizeLineCarries(field: string, human: string, bytes: string)
    requires PlainName(field) && '(' !in human
    requires IsToken(bytes) && '(' !in bytes
    ensures Carries(SizeLine(field, human, bytes), field)
    ensures ByteSize(SizeLine(field, human, bytes)) == Some(bytes)
  {
    var value := human + " (" + bytes + " bytes)";
    assert value[|value| - 1] == ')';
    FieldLineCarries(field, value);
    SizeOfSizeLine(field, human, bytes);
  }

  lemma SizeOfSizeLine(field: string, human: string, bytes: string)
    requires '(' !in field && '(' !in human && IsToken(bytes) && '(' !in bytes
    ensures ByteSize(SizeLine(field, human, bytes)) == Some(bytes)
  {
    var head := field + ": " + human + " ";
    SizeLineShape(field, human, bytes);
    assert ' ' !in bytes by {
      assert ' ' in bytes ==> !IsSpace(' ');
    }
    ByteSizeOf(head, bytes, "bytes)");
  }

  lemma SizeLineShape(field: string, human: string, bytes: string)
    ensures SizeLine(field, human, bytes) == (field + ": " + human + " ") + "(" + (bytes + " " + "bytes)")
  {
    assert " (" == " " + "(" && " bytes)" == " " + "bytes)";
    assert SizeLine(field, human, bytes) == field + (": " + (human + (" " + ("(" + (bytes + (" " + "bytes)"))))));
  }

  lemma ByteSizeOf(head: string, bytes: string, unit: string)
    requires '(' !in head && '(' !in bytes && '(' !in unit && ' ' !in bytes
    ensures ByteSize(head + "(" + (bytes + " " + unit)) == Some(bytes)
  {
    var tail := bytes + " " + unit;
    var line := head + "(" + tail;
    FirstSeparator(head, "(", tail);
    assert line[|head| + 1..] == tail;
    NoSeparator(tail, '(', "(");
    FirstSeparator(bytes, " ", unit);
    assert tail[..|bytes|] == bytes;
  }

  lemma LetterName(name: string)
    requires name != "" && name[0] != ' ' && forall i | 0 <= i < |name| :: name[i] == ' ' || 'a' <= name[i] <= 'z'
    ensures PlainName(name)
  {
    assert ':' !in name && '(' !in name && '\n' !in name;
  }

  lemma NamesAreWellFormed()
    ensures QEMU_FIELDS.WellFormed()
  {
    LetterName(QEMU_FIELDS.backingFile);
    LetterName(QEMU_FIELDS.virtualSize);
    LetterName(QEMU_FIELDS.fileFormat);
    assert QEMU_FIELDS.backingFile[0] == 'b' && QEMU_FIELDS.virtualSize[0] == 'v' && QEMU_FIELDS.fileFormat[0] == 'f';
  }

  /** The last line of the text that carries the field is the given one. */
  ghost predicate Shows(text: string, field: string, line: string) {
    exists k: nat :: LastCarrier(Split(text, "\n"), field, k) && Split(text, "\n")[k] == line
  }

  /** A text rendered from lines shows the last of them that carries the field. */
  lemma {:induction false} RenderedShows(lines: seq<string>, field: string, k: nat)
    requires lines != [] && (forall line | line in lines :: '\n' !in line) && LastCarrier(lines, field, k)
    ensures Shows(Join(lines, "\n"), field, lines[k])
  {
    SplitJoin(lines, '\n');
    assert LastCarrier(Split(Join(lines, "\n"), "\n"), field, k);
  }

  /** Rendering a word and scanning for it is the identity. */
  lemma ScanOfFieldLine(text: string, field: string, value: string, old_: string)
    requires Shows(text, field, FieldLine(field, value)) && PlainName(field) && IsToken(value)
    ensures Scanned(text, field, old_) == value
  {
    var lines := Split(text, "\n");
    var k: nat :| LastCarrier(lines, field, k) && lines[k] == FieldLine(field, value);
    FieldLineCarries(field, value);
    assert forall j | k < j < |lines| :: Hits(lines, field)[j].None?;
    LastHitIsLast(Hits(lines, field), old_, k);
  }

  lemma {:induction false} ScanOfSizeLine(text: string, names: FieldNames, human: string, bytes: string, old_: string)
    requires Shows(text, names.virtualSize, SizeLine(names.virtualSize, human, bytes)) && PlainName(names.virtualSize)
    requires '(' !in human && IsToken(bytes) && '(' !in bytes
    ensures LastHit(SizeHits(Split(text, "\n"), names), old_) == bytes
  {
    var lines := Split(text, "\n");
    var k: nat :| LastCarrier(lines, names.virtualSize, k) && lines[k] == SizeLine(names.virtualSize, human, bytes);
    SizeLineCarries(names.virtualSize, human, bytes);
    assert forall j | k < j < |lines| :: SizeHits(lines, names)[j].None?;
    LastHitIsLast(SizeHits(lines, names), old_, k);
  }

  /** The text of a disk's info as the scan needs it: format and byte size rendered, every size line readable. */
  ghost predicate DescribesDisk(text: string, names: FieldNames, format: string, human: string, bytes: string) {
    && Shows(text, names.fileFormat, FieldLine(names.fileFormat, format))
    && Shows(text, names.virtualSize, SizeLine(names.virtualSize, human, bytes))
    && AllReadable(Split(text, "\n"), names)
    && IsToken(format) && IsToken(bytes) && '(' !in human && '(' !in bytes
  }

  lemma {:induction false} ScanOfDisk(text: string, names: FieldNames, format: string, human: string, bytes: string,
                                      old_: DiskScan)
    requires names.WellFormed() && DescribesDisk(text, names, format, human, bytes)
    ensures var scan := AfterLines(Split(text, "\n"), names, old_);
      scan.Some? && scan.value.format == format && scan.value.size == bytes
  {
    LoopIsThreeScans(Split(text, "\n"), names, old_);
    ScanOfFieldLine(text, names.fileFormat, format, old_.format);
    ScanOfSizeLine(text, names, human, bytes, old_.size);
  }

  // ----- a rendered text -----

  /** Backing file, size and format, one line each. */
  function DiskLines(names: FieldNames, backing: string, human: string, bytes: string, format: string): seq<string> {
    [FieldLine(names.backingFile, backing), SizeLine(names.virtualSize, human, bytes),
     FieldLine(names.fileFormat, format)]
  }

  /** Which line of the rendered text carries which field. */
  lemma DiskLinesCarry(names: FieldNames, backing: string, human: string, bytes: string, format: string)
    requires names.WellFormed() && IsToken(backing) && IsToken(format)
    requires IsToken(bytes) && '(' !in human && '(' !in bytes
    ensures var lines := DiskLines(names, backing, human, bytes, format);
      && LastCarrier(lines, names.backingFile, 0) && LastCarrier(lines, names.virtualSize, 1)
      && LastCarrier(lines, names.fileFormat, 2)
      && AllReadable(lines, names)
  {
    FieldLineCarries(names.backingFile, backing);
    SizeLineCarries(names.virtualSize, human, bytes);
    FieldLineCarries(names.fileFormat, format);
    ThreeCarriers(names, DiskLines(names, backing, human, bytes, format));
  }

  /** Each of the three lines is the only one that carries its field. */
  lemma ThreeCarriers(names: FieldNames, lines: seq<string>)
    requires names.Distinct() && |lines| == 3
    requires Carries(lines[0], names.backingFile) && Carries(lines[1], names.virtualSize)
    requires Carries(lines[2], names.fileFormat)
    requires ByteSize(lines[1]).Some?
    ensures LastCarrier(lines, names.backingFile, 0) && LastCarrier(lines, names.virtualSize, 1)
    ensures LastCarrier(lines, names.fileFormat, 2)
    ensures AllReadable(lines, names)
  {
    var fields := [names.backingFile, names.virtualSize, names.fileFormat];
    assert EachCarries(lines, fields);
    OnlyCarrier(lines, fields, 0);
    OnlyCarrier(lines, fields, 1);
    OnlyCarrier(lines, fields, 2);
    OneSizeLine(lines, names, 1);
  }

  ghost predicate EachCarries(lines: seq<string>, fields: seq<string>) {
    |lines| == |fields| && forall j | 0 <= j < |fields| :: Carries(lines[j], fields[j])
  }

  ghost predicate CarriedOnlyAt(lines: seq<string>, field: string, k: nat) {
    forall j | 0 <= j < |lines| && j != k :: !Carries(lines[j], field)
  }

  lemma OnlyCarrier(lines: seq<string>, fields: seq<string>, k: nat)
    requires EachCarries(lines, fields) && k < |fields|
    requires forall j | 0 <= j < |fields| && j != k :: fields[j] != fields[k]
    ensures LastCarrier(lines, fields[k], k) && CarriedOnlyAt(lines, fields[k], k)
  {
  }

  lemma OneSizeLine(lines: seq<string>, names: FieldNames, k: nat)
    requires k < |lines| && ByteSize(lines[k]).Some?
    requires CarriedOnlyAt(lines, names.virtualSize, k)
    ensures AllReadable(lines, names)
  {
  }

  /** The rendered text shows its backing file and describes its disk. */
  lemma RenderedDisk(names: FieldNames, backing: string, human: string, bytes: string, format: string)
    requires names.WellFormed() && IsToken(backing) && IsToken(format) && '\n' !in human
    requires IsToken(bytes) && '(' !in human && '(' !in bytes
    ensures var text := Join(DiskLines(names, backing, human, bytes, format), "\n");
      && Shows(text, names.backingFile, FieldLine(names.backingFile, backing))
      && DescribesDisk(text, names, format, human, bytes)
  {
    var lines := DiskLines(names, backing, human, bytes, format);
    DiskLinesCarry(names, backing, human, bytes, format);
    OneLineEach(names, backing, human, bytes, format);
    RenderedShows(lines, names.backingFile, 0);
    RenderedShows(lines, names.virtualSize, 1);
    RenderedShows(lines, names.fileFormat, 2);
    SplitJoin(lines, '\n');
  }

  lemma OneLineEach(names: FieldNames, backing: string, human: string, bytes: string, format: string)
    requires names.WellFormed() && IsToken(backing) && IsToken(format) && IsToken(bytes) && '\n' !in human
    ensures forall line | line in DiskLines(names, backing, human, bytes, format) :: '\n' !in line
  {
    forall token | IsToken(token) ensures '\n' !in token {
      assert '\n' in token ==> !IsSpace('\n');
    }
  }
}

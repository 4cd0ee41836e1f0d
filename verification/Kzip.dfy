/** Compilation units of a kzip: their proto encoding, its parser, and the cheap peek at the
    primary source path. */
module Kzip {
  import opened Bytes
  import opened Wire

  /** A string field, as its bytes. */
  type Text = seq<byte>

  datatype VName = VName(signature: Text, corpus: Text, root: Text, path: Text, language: Text)
  datatype FileInfo = FileInfo(path: Text, digest: Text)
  datatype FileInput = FileInput(vName: VName, info: FileInfo)
  datatype CompilationUnit = CompilationUnit(vName: VName, requiredInput: seq<FileInput>, argument: seq<Text>,
                                             sourceFile: seq<Text>, outputKey: Text, workingDirectory: Text, entryContext: Text)

  const NoVName := VName([], [], [], [], [])
  const NoInfo := FileInfo([], [])
  const NoInput := FileInput(NoVName, NoInfo)
  const NoUnit := CompilationUnit(NoVName, [], [], [], [], [], [])

  // ---------------------------------------------------------------- encoding

  /** A field that is omitted when empty. */
  function Opt(num: nat, data: Text): seq<Field>
  {
    if data == [] then [] else [Field(num, data)]
  }

  /** A repeated field: every element is written, empty ones too. */
  function Each(num: nat, data: seq<Text>): (fs: seq<Field>)
    ensures |fs| == |data| && forall i :: 0 <= i < |fs| ==> fs[i] == Field(num, data[i])
  {
    if data == [] then [] else [Field(num, data[0])] + Each(num, data[1..])
  }

  function VNameFields(v: VName): seq<Field>
  {
    Opt(1, v.signature) + Opt(2, v.corpus) + Opt(3, v.root) + Opt(4, v.path) + Opt(5, v.language)
  }

  function InfoFields(i: FileInfo): seq<Field>
  {
    Opt(1, i.path) + Opt(2, i.digest)
  }

  function InputFields(fi: FileInput): seq<Field>
  {
    Opt(1, EncodeFields(VNameFields(fi.vName))) + Opt(2, EncodeFields(InfoFields(fi.info)))
  }

  function Inputs(fis: seq<FileInput>): (r: seq<Text>)
    ensures |r| == |fis| && forall i :: 0 <= i < |r| ==> r[i] == EncodeFields(InputFields(fis[i]))
  {
    if fis == [] then [] else [EncodeFields(InputFields(fis[0]))] + Inputs(fis[1..])
  }

  function UnitFields(c: CompilationUnit): seq<Field>
  {
    Opt(1, EncodeFields(VNameFields(c.vName))) + Each(3, Inputs(c.requiredInput)) + Each(5, c.argument) + Each(6, c.sourceFile)
    + Opt(7, c.outputKey) + Opt(8, c.workingDirectory) + Opt(9, c.entryContext)
  }

  function EncodeUnit(c: CompilationUnit): Text
  {
    EncodeFields(UnitFields(c))
  }

  /** `encode_indexed_compilation`. */
  function EncodeIndexed(c: CompilationUnit): Text
  {
    EncodeFields([Field(1, EncodeUnit(c))])
  }

  // ---------------------------------------------------------------- parsing

  function SetVName(v: VName, f: Field): Option<VName>
  {
    match f.num
    case 1 => Some(v.(signature := f.payload))
    case 2 => Some(v.(corpus := f.payload))
    case 3 => Some(v.(root := f.payload))
    case 4 => Some(v.(path := f.payload))
    case 5 => Some(v.(language := f.payload))
    case _ => Some(v)
  }

  function ParseVName(buf: Text): Option<VName>
  {
    FoldFrom(SetVName, NoVName, buf, 0)
  }

  function SetInfo(i: FileInfo, f: Field): Option<FileInfo>
  {
    match f.num
    case 1 => Some(i.(path := f.payload))
    case 2 => Some(i.(digest := f.payload))
    case _ => Some(i)
  }

  function ParseInfo(buf: Text): Option<FileInfo>
  {
    FoldFrom(SetInfo, NoInfo, buf, 0)
  }

  function SetInput(fi: FileInput, f: Field): Option<FileInput>
  {
    match f.num
    case 1 => (match ParseVName(f.payload) case None => None case Some(v) => Some(fi.(vName := v)))
    case 2 => (match ParseInfo(f.payload) case None => None case Some(i) => Some(fi.(info := i)))
    case _ => Some(fi)
  }

  function ParseInput(buf: Text): Option<FileInput>
  {
    FoldFrom(SetInput, NoInput, buf, 0)
  }

  function SetUnit(c: CompilationUnit, f: Field): Option<CompilationUnit>
  {
    match f.num
    case 1 => (match ParseVName(f.payload) case None => None case Some(v) => Some(c.(vName := v)))
    case 3 => (match ParseInput(f.payload) case None => None case Some(fi) => Some(c.(requiredInput := c.requiredInput + [fi])))
    case 5 => Some(c.(argument := c.argument + [f.payload]))
    case 6 => Some(c.(sourceFile := c.sourceFile + [f.payload]))
    case 7 => Some(c.(outputKey := f.payload))
    case 8 => Some(c.(workingDirectory := f.payload))
    case 9 => Some(c.(entryContext := f.payload))
    case _ => Some(c)
  }

  function ParseUnit(buf: Text): Option<CompilationUnit>
  {
    FoldFrom(SetUnit, NoUnit, buf, 0)
  }

  function SetIndexed(c: CompilationUnit, f: Field): Option<CompilationUnit>
  {
    if f.num == 1 then ParseUnit(f.payload) else Some(c)
  }

  function ParseIndexed(buf: Text): Option<CompilationUnit>
  {
    FoldFrom(SetIndexed, NoUnit, buf, 0)
  }

  // ---------------------------------------------------------------- round trips

  lemma FoldOpt<T>(set1: (T, Field) -> Option<T>, acc: T, num: nat, data: Text)
    ensures FoldFields(set1, acc, Opt(num, data)) == if data == [] then Some(acc) else set1(acc, Field(num, data))
  {
    if data != [] { assert Opt(num, data)[1..] == []; }
  }

  /** One more optional field after the ones already folded. */
  lemma ThenOpt<T>(set1: (T, Field) -> Option<T>, acc: T, fs: seq<Field>, num: nat, data: Text)
    ensures FoldFields(set1, acc, fs + Opt(num, data)) ==
      (var mid := FoldFields(set1, acc, fs);
       if mid.None? then None else if data == [] then mid else set1(mid.value, Field(num, data)))
  {
    FoldConcat(set1, acc, fs, Opt(num, data));
    var mid := FoldFields(set1, acc, fs);
    if mid.Some? { FoldOpt(set1, mid.value, num, data); }
  }

  lemma FoldVName(v: VName)
    ensures FoldFields(SetVName, NoVName, VNameFields(v)) == Some(v)
  {
    hide FoldFields, Opt;
    var f1 := Opt(1, v.signature);
    FoldOpt(SetVName, NoVName, 1, v.signature);
    ThenOpt(SetVName, NoVName, f1, 2, v.corpus);
    ThenOpt(SetVName, NoVName, f1 + Opt(2, v.corpus), 3, v.root);
    ThenOpt(SetVName, NoVName, f1 + Opt(2, v.corpus) + Opt(3, v.root), 4, v.path);
    ThenOpt(SetVName, NoVName, f1 + Opt(2, v.corpus) + Opt(3, v.root) + Opt(4, v.path), 5, v.language);
  }

  lemma FoldInfo(i: FileInfo)
    ensures FoldFields(SetInfo, NoInfo, InfoFields(i)) == Some(i)
  {
    hide FoldFields, Opt;
    FoldOpt(SetInfo, NoInfo, 1, i.path);
    ThenOpt(SetInfo, NoInfo, Opt(1, i.path), 2, i.digest);
  }

  ghost predicate Small(fs: seq<Field>)
  {
    forall i :: 0 <= i < |fs| ==> fs[i].num < 0x2000_0000
  }

  lemma SmallConcat(a: seq<Field>, b: seq<Field>)
    requires Small(a) && Small(b)
    ensures Small(a + b)
  {
  }

  /** Field numbers are small, so only lengths can be too big. */
  lemma NumbersSmall(fs: seq<Field>)
    requires Small(fs) && |EncodeFields(fs)| < U64
    ensures FieldsOk(fs)
  {
    forall i | 0 <= i < |fs| ensures FieldOk(fs[i]) { PayloadsFit(fs, i); }
  }

  lemma VNameRoundTrip(v: VName)
    requires |EncodeFields(VNameFields(v))| < U64
    ensures ParseVName(EncodeFields(VNameFields(v))) == Some(v)
  {
    var fs := VNameFields(v);
    NumbersSmall(fs);
    assert EncodeFields(fs)[0..] == EncodeFields(fs);
    FoldEncoded(SetVName, NoVName, EncodeFields(fs), 0, fs);
    FoldVName(v);
  }

  lemma InfoRoundTrip(i: FileInfo)
    requires |EncodeFields(InfoFields(i))| < U64
    ensures ParseInfo(EncodeFields(InfoFields(i))) == Some(i)
  {
    var fs := InfoFields(i);
    NumbersSmall(fs);
    assert EncodeFields(fs)[0..] == EncodeFields(fs);
    FoldEncoded(SetInfo, NoInfo, EncodeFields(fs), 0, fs);
    FoldInfo(i);
  }

  /** An omitted sub-message is the default one, and only that. */
  lemma OmittedVName(v: VName)
    ensures EncodeFields(VNameFields(v)) == [] <==> v == NoVName
  {
    EmptyEncoding(VNameFields(v));
  }

  lemma OmittedInfo(i: FileInfo)
    ensures EncodeFields(InfoFields(i)) == [] <==> i == NoInfo
  {
    EmptyEncoding(InfoFields(i));
  }

  lemma EmptyEncoding(fs: seq<Field>)
    ensures EncodeFields(fs) == [] <==> fs == []
  {
    if fs != [] { NonEmpty(fs[0]); }
  }

  /** A payload inside a message that fits also fits. */
  lemma PayloadFits(fs: seq<Field>, a: seq<Field>, num: nat, data: Text, b: seq<Field>)
    requires fs == a + Opt(num, data) + b && FieldsOk(fs)
    ensures |data| < U64
  {
    if data != [] { assert fs[|a|] == Field(num, data); }
  }

  lemma FoldInput(fi: FileInput)
    requires |EncodeFields(VNameFields(fi.vName))| < U64 && |EncodeFields(InfoFields(fi.info))| < U64
    ensures FoldFields(SetInput, NoInput, InputFields(fi)) == Some(fi)
  {
    var v, i := EncodeFields(VNameFields(fi.vName)), EncodeFields(InfoFields(fi.info));
    OmittedVName(fi.vName);
    OmittedInfo(fi.info);
    hide FoldFields, Opt, EncodeFields, VNameFields, InfoFields, ParseVName, ParseInfo;
    VNameRoundTrip(fi.vName);
    InfoRoundTrip(fi.info);
    FoldOpt(SetInput, NoInput, 1, v);
    ThenOpt(SetInput, NoInput, Opt(1, v), 2, i);
  }

  lemma InputRoundTrip(fi: FileInput)
    requires |EncodeFields(InputFields(fi))| < U64
    ensures ParseInput(EncodeFields(InputFields(fi))) == Some(fi)
  {
    var fs := InputFields(fi);
    var v, i := EncodeFields(VNameFields(fi.vName)), EncodeFields(InfoFields(fi.info));
    NumbersSmall(fs);
    assert fs == [] + Opt(1, v) + Opt(2, i) && fs == Opt(1, v) + Opt(2, i) + [];
    hide FoldFields, Opt, EncodeFields, VNameFields, InfoFields, SetInput, FoldFrom;
    PayloadFits(fs, [], 1, v, Opt(2, i));
    PayloadFits(fs, Opt(1, v), 2, i, []);
    assert EncodeFields(fs)[0..] == EncodeFields(fs);
    FoldEncoded(SetInput, NoInput, EncodeFields(fs), 0, fs);
    FoldInput(fi);
  }

  // ---------------------------------------------------------------- the unit

  lemma FoldHead<T>(set1: (T, Field) -> Option<T>, acc: T, f: Field, rest: seq<Field>)
    ensures FoldFields(set1, acc, [f] + rest) == (var next := set1(acc, f); if next.None? then None else FoldFields(set1, next.value, rest))
  {
    assert ([f] + rest)[1..] == rest;
  }

  lemma {:induction false} FoldArguments(c: CompilationUnit, xs: seq<Text>)
    ensures FoldFields(SetUnit, c, Each(5, xs)) == Some(c.(argument := c.argument + xs))
    decreases |xs|
  {
    if xs == [] {
      assert c.argument + xs == c.argument;
    } else {
      var c' := c.(argument := c.argument + [xs[0]]);
      assert SetUnit(c, Field(5, xs[0])) == Some(c');
      assert c'.argument + xs[1..] == c.argument + xs;
      FoldArguments(c', xs[1..]);
      hide FoldFields, SetUnit;
      FoldHead(SetUnit, c, Field(5, xs[0]), Each(5, xs[1..]));
    }
  }

  lemma {:induction false} FoldSources(c: CompilationUnit, xs: seq<Text>)
    ensures FoldFields(SetUnit, c, Each(6, xs)) == Some(c.(sourceFile := c.sourceFile + xs))
    decreases |xs|
  {
    if xs == [] {
      assert c.sourceFile + xs == c.sourceFile;
    } else {
      var c' := c.(sourceFile := c.sourceFile + [xs[0]]);
      assert SetUnit(c, Field(6, xs[0])) == Some(c');
      assert c'.sourceFile + xs[1..] == c.sourceFile + xs;
      FoldSources(c', xs[1..]);
      hide FoldFields, SetUnit;
      FoldHead(SetUnit, c, Field(6, xs[0]), Each(6, xs[1..]));
    }
  }

  ghost predicate InputsFit(fis: seq<FileInput>)
  {
    forall i :: 0 <= i < |fis| ==> |EncodeFields(InputFields(fis[i]))| < U64
  }

  lemma SetInputField(c: CompilationUnit, fi: FileInput)
    requires |EncodeFields(InputFields(fi))| < U64
    ensures SetUnit(c, Field(3, EncodeFields(InputFields(fi)))) == Some(c.(requiredInput := c.requiredInput + [fi]))
  {
    hide EncodeFields, InputFields, ParseInput, ParseVName;
    InputRoundTrip(fi);
  }

  lemma {:induction false} FoldInputs(c: CompilationUnit, fis: seq<FileInput>)
    requires InputsFit(fis)
    ensures FoldFields(SetUnit, c, Each(3, Inputs(fis))) == Some(c.(requiredInput := c.requiredInput + fis))
    decreases |fis|
  {
    hide EncodeFields, InputFields, SetUnit;
    if fis == [] {
      assert c.requiredInput + fis == c.requiredInput;
    } else {
      SetInputField(c, fis[0]);
      var c' := c.(requiredInput := c.requiredInput + [fis[0]]);
      assert c'.requiredInput + fis[1..] == c.requiredInput + fis;
      FoldInputs(c', fis[1..]);
      hide FoldFields;
      FoldHead(SetUnit, c, Field(3, EncodeFields(InputFields(fis[0]))), Each(3, Inputs(fis[1..])));
      assert Inputs(fis)[1..] == Inputs(fis[1..]);
    }
  }

  /** The list fields, after whatever came before them. */
  lemma FoldLists(c: CompilationUnit, fs: seq<Field>, mid: CompilationUnit)
    requires FoldFields(SetUnit, NoUnit, fs) == Some(mid) && InputsFit(c.requiredInput)
    ensures FoldFields(SetUnit, NoUnit, fs + Each(3, Inputs(c.requiredInput)) + Each(5, c.argument) + Each(6, c.sourceFile))
      == Some(mid.(requiredInput := mid.requiredInput + c.requiredInput, argument := mid.argument + c.argument, sourceFile := mid.sourceFile + c.sourceFile))
  {
    hide FoldFields, Each, Inputs, SetUnit, EncodeFields, InputFields;
    FoldConcat(SetUnit, NoUnit, fs, Each(3, Inputs(c.requiredInput)));
    FoldInputs(mid, c.requiredInput);
    var m1 := mid.(requiredInput := mid.requiredInput + c.requiredInput);
    FoldConcat(SetUnit, NoUnit, fs + Each(3, Inputs(c.requiredInput)), Each(5, c.argument));
    FoldArguments(m1, c.argument);
    var m2 := m1.(argument := m1.argument + c.argument);
    FoldConcat(SetUnit, NoUnit, fs + Each(3, Inputs(c.requiredInput)) + Each(5, c.argument), Each(6, c.sourceFile));
    FoldSources(m2, c.sourceFile);
  }

  lemma FoldUnit(c: CompilationUnit)
    requires InputsFit(c.requiredInput) && |EncodeFields(VNameFields(c.vName))| < U64
    ensures FoldFields(SetUnit, NoUnit, UnitFields(c)) == Some(c)
  {
    OmittedVName(c.vName);
    hide FoldFields, Each, Inputs, EncodeFields, InputFields, VNameFields, ParseVName, ParseInput, Opt;
    var v := EncodeFields(VNameFields(c.vName));
    VNameRoundTrip(c.vName);
    FoldOpt(SetUnit, NoUnit, 1, v);
    var mid := NoUnit.(vName := c.vName);
    assert FoldFields(SetUnit, NoUnit, Opt(1, v)) == Some(mid);
    FoldLists(c, Opt(1, v), mid);
    var fs := Opt(1, v) + Each(3, Inputs(c.requiredInput)) + Each(5, c.argument) + Each(6, c.sourceFile);
    var m := mid.(requiredInput := c.requiredInput, argument := c.argument, sourceFile := c.sourceFile);
    assert [] + c.requiredInput == c.requiredInput && [] + c.argument == c.argument && [] + c.sourceFile == c.sourceFile;
    assert FoldFields(SetUnit, NoUnit, fs) == Some(m);
    FoldTail(c, fs, m);
  }

  lemma FoldTail(c: CompilationUnit, fs: seq<Field>, m: CompilationUnit)
    requires FoldFields(SetUnit, NoUnit, fs) == Some(m) && m == c.(outputKey := [], workingDirectory := [], entryContext := [])
    ensures FoldFields(SetUnit, NoUnit, fs + Opt(7, c.outputKey) + Opt(8, c.workingDirectory) + Opt(9, c.entryContext)) == Some(c)
  {
    hide FoldFields, Opt;
    ThenOpt(SetUnit, NoUnit, fs, 7, c.outputKey);
    ThenOpt(SetUnit, NoUnit, fs + Opt(7, c.outputKey), 8, c.workingDirectory);
    ThenOpt(SetUnit, NoUnit, fs + Opt(7, c.outputKey) + Opt(8, c.workingDirectory), 9, c.entryContext);
  }

  /** What follows the inputs. */
  function LaterFields(c: CompilationUnit): seq<Field>
  {
    Each(5, c.argument) + Each(6, c.sourceFile) + Opt(7, c.outputKey) + Opt(8, c.workingDirectory) + Opt(9, c.entryContext)
  }

  lemma LaterSmall(c: CompilationUnit)
    ensures Small(LaterFields(c))
  {
    var a, b, d, e, f := Each(5, c.argument), Each(6, c.sourceFile), Opt(7, c.outputKey), Opt(8, c.workingDirectory), Opt(9, c.entryContext);
    assert Small(a) && Small(b) && Small(d) && Small(e) && Small(f);
    hide Small, Each, Opt;
    SmallConcat(a, b);
    SmallConcat(a + b, d);
    SmallConcat(a + b + d, e);
    SmallConcat(a + b + d + e, f);
  }

  lemma UnitSplit(c: CompilationUnit)
    ensures UnitFields(c) == Opt(1, EncodeFields(VNameFields(c.vName))) + (Each(3, Inputs(c.requiredInput)) + LaterFields(c))
  {
    hide EncodeFields, VNameFields, Each, Opt, Inputs;
  }

  lemma UnitFieldsOk(c: CompilationUnit)
    requires |EncodeUnit(c)| < U64
    ensures FieldsOk(UnitFields(c)) && InputsFit(c.requiredInput) && |EncodeFields(VNameFields(c.vName))| < U64
  {
    UnitSplit(c);
    LaterSmall(c);
    hide EncodeFields, InputFields, VNameFields, UnitFields, LaterFields;
    var fs, v, ins := UnitFields(c), EncodeFields(VNameFields(c.vName)), Each(3, Inputs(c.requiredInput));
    assert Small(ins) && Small(Opt(1, v));
    SmallConcat(ins, LaterFields(c));
    SmallConcat(Opt(1, v), ins + LaterFields(c));
    NumbersSmall(fs);
    hide Small;
    assert fs == [] + Opt(1, v) + (ins + LaterFields(c));
    PayloadFits(fs, [], 1, v, ins + LaterFields(c));
    forall i | 0 <= i < |c.requiredInput| ensures |EncodeFields(InputFields(c.requiredInput[i]))| < U64 {
      assert fs[|Opt(1, v)| + i] == ins[i];
    }
  }

  lemma UnitRoundTrip(c: CompilationUnit)
    requires |EncodeUnit(c)| < U64
    ensures ParseUnit(EncodeUnit(c)) == Some(c)
  {
    UnitFieldsOk(c);
    hide FoldFields, EncodeFields, UnitFields, InputFields, VNameFields, SetUnit, FoldFrom;
    var fs := UnitFields(c);
    assert EncodeFields(fs)[0..] == EncodeFields(fs);
    FoldEncoded(SetUnit, NoUnit, EncodeFields(fs), 0, fs);
    FoldUnit(c);
  }

  /** For every compilation unit whose encoding has a 64-bit length, parsing its encoding
      returns the same unit: empty strings, empty inputs and omitted defaults included. */
  lemma IndexedRoundTrip(c: CompilationUnit)
    requires |EncodeUnit(c)| < U64
    ensures ParseIndexed(EncodeIndexed(c)) == Some(c)
  {
    UnitRoundTrip(c);
    hide EncodeUnit, ParseUnit;
    var fs := [Field(1, EncodeUnit(c))];
    assert EncodeFields(fs)[0..] == EncodeFields(fs);
    FoldEncoded(SetIndexed, NoUnit, EncodeFields(fs), 0, fs);
    assert fs[1..] == [];
  }

  /** Encode, then run the parser's loop. */
  method Reparse(c: CompilationUnit) returns (r: Option<CompilationUnit>)
    requires |EncodeUnit(c)| < U64
    ensures r == Some(c)
  {
    IndexedRoundTrip(c);
    r := ParseMessage(SetIndexed, NoUnit, EncodeIndexed(c));
  }

  // ---------------------------------------------------------------- the primary path

  /** `cu_primary_path`. */
  function PrimaryPath(c: CompilationUnit): Option<Text>
  {
    if c.sourceFile != [] then Some(c.sourceFile[0])
    else if c.requiredInput != [] && c.requiredInput[0].vName.path != [] then Some(c.requiredInput[0].vName.path)
    else if c.requiredInput != [] && c.requiredInput[0].info.path != [] then Some(c.requiredInput[0].info.path)
    else if c.vName.path != [] then Some(c.vName.path) else None
  }

  function Find(buf: Text, target: nat): Option<Text>
  {
    FindFrom(buf, 0, target)
  }

  /** `peek_proto_primary_path`. */
  function Peek(buf: Text): Option<Text>
  {
    match Find(buf, 1)
    case None => None
    case Some(cu) =>
      if Find(cu, 6).Some? then Find(cu, 6)
      else
        match Find(cu, 3)
        case None => None
        case Some(input) =>
          match Find(input, 1)
          case None => None
          case Some(vname) =>
            if Find(vname, 4).Some? then Find(vname, 4)
            else
              match Find(input, 2)
              case None => None
              case Some(info) => if Find(info, 1).Some? then Find(info, 1) else Some([])
  }

  /** The walk itself, one truncating search per level. */
  method PeekPath(buf: Text) returns (r: Option<Text>)
    ensures r == Peek(buf)
  {
    var cu := FindField(buf, 1);
    if cu.None? { return None; }
    var source := FindField(cu.value, 6);
    if source.Some? { return source; }
    var input := FindField(cu.value, 3);
    if input.None? { return None; }
    var vname := FindField(input.value, 1);
    if vname.None? { return None; }
    var path := FindField(vname.value, 4);
    if path.Some? { return path; }
    var info := FindField(input.value, 2);
    if info.None? { return None; }
    var last := FindField(info.value, 1);
    return if last.Some? then last else Some([]);
  }

  lemma FirstOpt(num: nat, data: Text, target: nat)
    ensures FirstWith(Opt(num, data), target) == if num == target && data != [] then Some(data) else None
  {
  }

  lemma FirstEach(num: nat, data: seq<Text>, target: nat)
    ensures FirstWith(Each(num, data), target) == if num == target && data != [] then Some(data[0]) else None
    decreases |data|
  {
    if data != [] && num != target {
      assert Each(num, data)[1..] == Each(num, data[1..]);
      FirstEach(num, data[1..], target);
    }
  }

  lemma FirstVNamePath(v: VName)
    ensures FirstWith(VNameFields(v), 4) == if v.path != [] then Some(v.path) else None
  {
    hide FirstWith, Opt;
    var a, b, c, d, e := Opt(1, v.signature), Opt(2, v.corpus), Opt(3, v.root), Opt(4, v.path), Opt(5, v.language);
    FirstConcat(a, b, 4);
    FirstConcat(a + b, c, 4);
    FirstConcat(a + b + c, d, 4);
    FirstConcat(a + b + c + d, e, 4);
    FirstOpt(1, v.signature, 4);
    FirstOpt(2, v.corpus, 4);
    FirstOpt(3, v.root, 4);
    FirstOpt(4, v.path, 4);
    FirstOpt(5, v.language, 4);
  }

  lemma FirstInfoPath(i: FileInfo)
    ensures FirstWith(InfoFields(i), 1) == if i.path != [] then Some(i.path) else None
  {
    hide FirstWith, Opt;
    FirstConcat(Opt(1, i.path), Opt(2, i.digest), 1);
    FirstOpt(1, i.path, 1);
    FirstOpt(2, i.digest, 1);
  }

  lemma FirstInInput(fi: FileInput)
    ensures FirstWith(InputFields(fi), 1) == if fi.vName != NoVName then Some(EncodeFields(VNameFields(fi.vName))) else None
    ensures FirstWith(InputFields(fi), 2) == if fi.info != NoInfo then Some(EncodeFields(InfoFields(fi.info))) else None
  {
    OmittedVName(fi.vName);
    OmittedInfo(fi.info);
    hide FirstWith, Opt, EncodeFields, VNameFields, InfoFields;
    var v, i := EncodeFields(VNameFields(fi.vName)), EncodeFields(InfoFields(fi.info));
    FirstConcat(Opt(1, v), Opt(2, i), 1);
    FirstConcat(Opt(1, v), Opt(2, i), 2);
    FirstOpt(1, v, 1);
    FirstOpt(2, i, 1);
    FirstOpt(1, v, 2);
    FirstOpt(2, i, 2);
  }

  lemma FirstInUnit(c: CompilationUnit, target: nat)
    requires target == 3 || target == 6
    ensures FirstWith(UnitFields(c), target) ==
      if target == 6 then (if c.sourceFile != [] then Some(c.sourceFile[0]) else None)
      else if c.requiredInput != [] then Some(EncodeFields(InputFields(c.requiredInput[0]))) else None
  {
    hide FirstWith, Opt, EncodeFields, VNameFields, InputFields;
    var v := Opt(1, EncodeFields(VNameFields(c.vName)));
    var ins, args, srcs := Each(3, Inputs(c.requiredInput)), Each(5, c.argument), Each(6, c.sourceFile);
    FirstConcat(v, ins, target);
    FirstConcat(v + ins, args, target);
    FirstConcat(v + ins + args, srcs, target);
    FirstOpt(1, EncodeFields(VNameFields(c.vName)), target);
    FirstEach(3, Inputs(c.requiredInput), target);
    FirstEach(5, c.argument, target);
    FirstEach(6, c.sourceFile, target);
    hide Each, Inputs;
    FirstTail(v + ins + args + srcs, c, target);
  }

  lemma FirstTail(fs: seq<Field>, c: CompilationUnit, target: nat)
    requires target == 3 || target == 6
    ensures FirstWith(fs + Opt(7, c.outputKey) + Opt(8, c.workingDirectory) + Opt(9, c.entryContext), target) == FirstWith(fs, target)
  {
    hide FirstWith, Opt;
    FirstConcat(fs, Opt(7, c.outputKey), target);
    FirstConcat(fs + Opt(7, c.outputKey), Opt(8, c.workingDirectory), target);
    FirstConcat(fs + Opt(7, c.outputKey) + Opt(8, c.workingDirectory), Opt(9, c.entryContext), target);
    FirstOpt(7, c.outputKey, target);
    FirstOpt(8, c.workingDirectory, target);
    FirstOpt(9, c.entryContext, target);
  }

  lemma FindIsFirst(fs: seq<Field>, target: nat)
    requires FieldsOk(fs) && |EncodeFields(fs)| < U64
    ensures Find(EncodeFields(fs), target) == FirstWith(fs, target)
  {
    assert EncodeFields(fs)[0..] == EncodeFields(fs);
    FindEncoded(EncodeFields(fs), 0, fs, target);
  }

  /** What the peek says of an encoded unit: the first source file; failing that the first
      input's own path; nothing when the input or the sub-message it needs is absent. */
  function PeekMeaning(c: CompilationUnit): Option<Text>
  {
    if c.sourceFile != [] then Some(c.sourceFile[0])
    else if c.requiredInput == [] || c.requiredInput[0].vName == NoVName then None
    else if c.requiredInput[0].vName.path != [] then Some(c.requiredInput[0].vName.path)
    else if c.requiredInput[0].info == NoInfo then None
    else Some(c.requiredInput[0].info.path)
  }

  lemma PeekInput(fi: FileInput)
    requires |EncodeFields(InputFields(fi))| < U64
    ensures var e := EncodeFields(InputFields(fi));
      && Find(e, 1) == (if fi.vName != NoVName then Some(EncodeFields(VNameFields(fi.vName))) else None)
      && Find(e, 2) == (if fi.info != NoInfo then Some(EncodeFields(InfoFields(fi.info))) else None)
    ensures fi.vName != NoVName ==>
      Find(EncodeFields(VNameFields(fi.vName)), 4) == if fi.vName.path != [] then Some(fi.vName.path) else None
    ensures fi.info != NoInfo ==>
      Find(EncodeFields(InfoFields(fi.info)), 1) == if fi.info.path != [] then Some(fi.info.path) else None
  {
    var fs := InputFields(fi);
    var v, i := EncodeFields(VNameFields(fi.vName)), EncodeFields(InfoFields(fi.info));
    NumbersSmall(fs);
    assert fs == [] + Opt(1, v) + Opt(2, i) && fs == Opt(1, v) + Opt(2, i) + [];
    PayloadFits(fs, [], 1, v, Opt(2, i));
    PayloadFits(fs, Opt(1, v), 2, i, []);
    NumbersSmall(VNameFields(fi.vName));
    NumbersSmall(InfoFields(fi.info));
    hide EncodeFields, InputFields, VNameFields, InfoFields, Opt, FirstWith;
    FindIsFirst(fs, 1);
    FindIsFirst(fs, 2);
    FirstInInput(fi);
    FindIsFirst(VNameFields(fi.vName), 4);
    FirstVNamePath(fi.vName);
    FindIsFirst(InfoFields(fi.info), 1);
    FirstInfoPath(fi.info);
  }

  lemma PeekExact(c: CompilationUnit)
    requires |EncodeIndexed(c)| < U64
    ensures Peek(EncodeIndexed(c)) == PeekMeaning(c)
  {
    var whole := [Field(1, EncodeUnit(c))];
    PayloadsFit(whole, 0);
    NumbersSmall(whole);
    FindIsFirst(whole, 1);
    UnitFieldsOk(c);
    hide EncodeFields, UnitFields, InputFields, VNameFields, InfoFields, Find;
    FindIsFirst(UnitFields(c), 6);
    FindIsFirst(UnitFields(c), 3);
    FirstInUnit(c, 6);
    FirstInUnit(c, 3);
    hide FirstWith;
    if c.requiredInput != [] { PeekInput(c.requiredInput[0]); }
  }

  /** On encodings of units, a non-empty peek is the primary path; and the peek equals the
      primary path exactly when the unit names a source file, its first input a path, or
      nothing names a path and the first input is missing a sub-message. */
  lemma PeekAgrees(c: CompilationUnit)
    requires |EncodeIndexed(c)| < U64
    ensures var p := Peek(EncodeIndexed(c)); p.Some? && p.value != [] ==> p == PrimaryPath(c)
    ensures Peek(EncodeIndexed(c)) == PrimaryPath(c) <==>
      || c.sourceFile != []
      || (c.requiredInput != [] && c.requiredInput[0].vName.path != [])
      || (c.requiredInput != [] && c.requiredInput[0].vName != NoVName && c.requiredInput[0].info.path != [])
      || (c.vName.path == [] && PathlessInput(c))
  {
    PeekExact(c);
    hide Peek, EncodeIndexed;
  }

  /** No input, or one that names no path and lacks a sub-message altogether. */
  predicate PathlessInput(c: CompilationUnit)
  {
    c.requiredInput == [] || (c.requiredInput[0].info.path == [] && (c.requiredInput[0].vName == NoVName || c.requiredInput[0].info == NoInfo))
  }

  // ---------------------------------------------------------------- the bytes, field by field

  /** One short record as bytes: the tag byte, the length byte, the payload. */
  function Record(tag: byte, data: Text): Text
    requires |data| < 128
  {
    [tag, |data|] + data
  }

  function OptRecord(tag: byte, data: Text): Text
    requires |data| < 128
  {
    if data == [] then [] else Record(tag, data)
  }

  function Records(tag: byte, data: seq<Text>): Text
    requires forall i :: 0 <= i < |data| ==> |data[i]| < 128
  {
    if data == [] then [] else Record(tag, data[0]) + Records(tag, data[1..])
  }

  lemma {:induction false} EncodeConcat(a: seq<Field>, b: seq<Field>)
    ensures EncodeFields(a + b) == EncodeFields(a) + EncodeFields(b)
  {
    hide EncodeField;
    if a == [] {
      assert a + b == b;
    } else {
      assert (a + b)[1..] == a[1..] + b;
      EncodeConcat(a[1..], b);
    }
  }

  lemma FieldBytes(num: nat, data: Text)
    requires num < 15 && |data| < 128
    ensures EncodeField(Field(num, data)) == Record(8 * num + 2, data)
  {
  }

  lemma OptBytes(num: nat, data: Text)
    requires num < 15 && |data| < 128
    ensures EncodeFields(Opt(num, data)) == OptRecord(8 * num + 2, data)
  {
    FieldBytes(num, data);
    if data != [] {
      assert Opt(num, data)[1..] == [];
      assert EncodeFields(Opt(num, data)) == EncodeField(Field(num, data)) + EncodeFields([]);
    }
  }

  lemma {:induction false} EachBytes(num: nat, data: seq<Text>)
    requires num < 15 && forall i :: 0 <= i < |data| ==> |data[i]| < 128
    ensures EncodeFields(Each(num, data)) == Records(8 * num + 2, data)
  {
    if data != [] {
      FieldBytes(num, data[0]);
      EachBytes(num, data[1..]);
      assert Each(num, data)[1..] == Each(num, data[1..]);
    }
  }

  ghost predicate ShortVName(v: VName)
  {
    |v.signature| < 128 && |v.corpus| < 128 && |v.root| < 128 && |v.path| < 128 && |v.language| < 128
  }

  function VNameRecords(v: VName): Text
    requires ShortVName(v)
  {
    OptRecord(0x0A, v.signature) + OptRecord(0x12, v.corpus) + OptRecord(0x1A, v.root) + OptRecord(0x22, v.path) + OptRecord(0x2A, v.language)
  }

  /** The tag bytes of a VName's fields. */
  lemma VNameBytes(v: VName)
    requires ShortVName(v)
    ensures EncodeFields(VNameFields(v)) == VNameRecords(v)
  {
    hide EncodeFields, OptRecord, Opt;
    OptBytes(1, v.signature);
    OptBytes(2, v.corpus);
    OptBytes(3, v.root);
    OptBytes(4, v.path);
    OptBytes(5, v.language);
    EncodeConcat(Opt(1, v.signature), Opt(2, v.corpus));
    EncodeConcat(Opt(1, v.signature) + Opt(2, v.corpus), Opt(3, v.root));
    EncodeConcat(Opt(1, v.signature) + Opt(2, v.corpus) + Opt(3, v.root), Opt(4, v.path));
    EncodeConcat(Opt(1, v.signature) + Opt(2, v.corpus) + Opt(3, v.root) + Opt(4, v.path), Opt(5, v.language));
  }

  /** ... of an input's, whose sub-messages are short. */
  lemma InputBytes(fi: FileInput)
    requires ShortVName(fi.vName) && |fi.info.path| < 128 && |fi.info.digest| < 128
    requires |VNameRecords(fi.vName)| < 128 && |OptRecord(0x0A, fi.info.path) + OptRecord(0x12, fi.info.digest)| < 128
    ensures EncodeFields(InputFields(fi)) ==
      OptRecord(0x0A, VNameRecords(fi.vName)) + OptRecord(0x12, OptRecord(0x0A, fi.info.path) + OptRecord(0x12, fi.info.digest))
  {
    hide EncodeFields, OptRecord, Opt, VNameFields, VNameRecords;
    VNameBytes(fi.vName);
    OptBytes(1, fi.info.path);
    OptBytes(2, fi.info.digest);
    EncodeConcat(Opt(1, fi.info.path), Opt(2, fi.info.digest));
    var v, i := VNameRecords(fi.vName), OptRecord(0x0A, fi.info.path) + OptRecord(0x12, fi.info.digest);
    OptBytes(1, v);
    OptBytes(2, i);
    EncodeConcat(Opt(1, v), Opt(2, i));
  }

  ghost predicate ShortAll(ss: seq<Text>)
  {
    forall i :: 0 <= i < |ss| ==> |ss[i]| < 128
  }

  /** ... and of a unit's. */
  lemma UnitBytes(c: CompilationUnit)
    requires ShortVName(c.vName) && |VNameRecords(c.vName)| < 128 && ShortAll(Inputs(c.requiredInput)) && ShortAll(c.argument) && ShortAll(c.sourceFile)
    requires |c.outputKey| < 128 && |c.workingDirectory| < 128 && |c.entryContext| < 128
    ensures EncodeUnit(c) ==
      OptRecord(0x0A, VNameRecords(c.vName)) + Records(0x1A, Inputs(c.requiredInput)) + Records(0x2A, c.argument) + Records(0x32, c.sourceFile)
      + OptRecord(0x3A, c.outputKey) + OptRecord(0x42, c.workingDirectory) + OptRecord(0x4A, c.entryContext)
  {
    hide EncodeFields, OptRecord, Records, Opt, Each, VNameFields, VNameRecords, Inputs;
    VNameBytes(c.vName);
    var v, ins, args, srcs := Opt(1, VNameRecords(c.vName)), Each(3, Inputs(c.requiredInput)), Each(5, c.argument), Each(6, c.sourceFile);
    OptBytes(1, VNameRecords(c.vName));
    EachBytes(3, Inputs(c.requiredInput));
    EachBytes(5, c.argument);
    EachBytes(6, c.sourceFile);
    OptBytes(7, c.outputKey);
    OptBytes(8, c.workingDirectory);
    OptBytes(9, c.entryContext);
    EncodeConcat(v, ins);
    EncodeConcat(v + ins, args);
    EncodeConcat(v + ins + args, srcs);
    EncodeConcat(v + ins + args + srcs, Opt(7, c.outputKey));
    EncodeConcat(v + ins + args + srcs + Opt(7, c.outputKey), Opt(8, c.workingDirectory));
    EncodeConcat(v + ins + args + srcs + Opt(7, c.outputKey) + Opt(8, c.workingDirectory), Opt(9, c.entryContext));
  }
}

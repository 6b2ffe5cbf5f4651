/**
 * The label-map file format read by both load_labels (server.py) and
 * load_label_map (src/main.py): one "<index> <name>" pair per line. Each
 * line is stripped and split once on whitespace. A line that yields two
 * parts binds int(first part) to the second part lower-cased. Any other
 * line is skipped. A first part that int() rejects raises ValueError.
 *
 * ParseLabels is the meaning of the loading loop: a left fold of the lines
 * over the dictionary being built, stopped by the first ValueError. The
 * lemmas below characterise it independently of the fold.
 */
module LabelFile {
  import opened Wrappers
  import opened Text
  import opened Seqs

  type LabelMap = map<int, string>

  /**
   * The exception that ends loading: int() on a first token that is not a
   * number (ValueError), or a file that exists but cannot be opened or read.
   */
  datatype LoadError = NotAnInteger(token: string) | ReadFailed

  /** The label file as the loader finds it: absent, present but unreadable, or its stored text. */
  datatype LabelSource = Missing | Unreadable | Readable(text: string)

  /** What one line of the file contributes. */
  datatype LineKind = Skip | Entry(key: int, name: string) | BadIndex(token: string)

  function ParseLine(line: string): LineKind {
    var parts := SplitOnce(Strip(line));
    if |parts| != 2 then Skip
    else match ParseInt(parts[0])
      case None => BadIndex(parts[0])
      case Some(k) => Entry(k, Lower(parts[1]))
  }

  /** One iteration of the loading loop on the dictionary built so far. */
  function Step(acc: Result<LabelMap, LoadError>, kind: LineKind): Result<LabelMap, LoadError> {
    match acc
    case Err(_) => acc
    case Ok(m) =>
      match kind
      case Skip => acc
      case Entry(k, v) => Ok(m[k := v])
      case BadIndex(t) => Err(NotAnInteger(t))
  }

  /** The loop over lines already classified: a left fold stopped by the first error. */
  function Fold(kinds: seq<LineKind>): Result<LabelMap, LoadError>
    decreases |kinds|
  {
    if kinds == [] then Ok(map[]) else Step(Fold(kinds[..|kinds| - 1]), kinds[|kinds| - 1])
  }

  /** Each line classified on its own. */
  function Kinds(lines: seq<string>): seq<LineKind> {
    Map(ParseLine, lines)
  }

  /**
   * The dictionary the loop builds over `lines`, or the ValueError that ends
   * it. This is Fold(Kinds(lines)) (ParseLabelsIsFold), written directly over
   * the lines so that the loop's invariant needs one ParseLine per iteration
   * and no reasoning about the whole sequence of classifications. The lemmas
   * about the file as a whole are proved on Fold, where a line's kind can be
   * inserted or removed without re-classifying the other lines.
   */
  function ParseLabels(lines: seq<string>): Result<LabelMap, LoadError>
    decreases |lines|
  {
    if lines == [] then Ok(map[])
    else Step(ParseLabels(lines[..|lines| - 1]), ParseLine(lines[|lines| - 1]))
  }

  // ---------------------------------------------------------------------------
  // One line
  // ---------------------------------------------------------------------------

  /**
   * A line whose stripped text is an index token, whitespace and a name binds
   * the token's integer value to the name lower-cased, internal whitespace of
   * the name included; a token that is not an integer makes the line fail.
   */
  lemma ParseLineOf(line: string, token: string, sep: string, name: string)
    requires Strip(line) == token + sep + name
    requires token != [] && !HasSpace(token)
    requires sep != [] && AllSpace(sep)
    requires name != [] && !IsSpace(name[0])
    ensures ParseInt(token).Some? ==> ParseLine(line) == Entry(ParseInt(token).value, Lower(name))
    ensures ParseInt(token).None? ==> ParseLine(line) == BadIndex(token)
  {
    SplitOnceOf(token, sep, name);
  }

  /** A line is skipped exactly when its stripped text is blank or a single token. */
  lemma ParseLineSkipIff(line: string)
    ensures ParseLine(line).Skip? <==> !HasSpace(Strip(line))
  {
    SkipIffNotTwoParts(line);
    StripSpec(line);
    TwoPartsIff(Strip(line));
  }

  lemma SkipIffNotTwoParts(line: string)
    ensures ParseLine(line).Skip? <==> |SplitOnce(Strip(line))| != 2
  {
  }

  // ---------------------------------------------------------------------------
  // The fold over classified lines
  // ---------------------------------------------------------------------------

  lemma FoldSnoc(ks: seq<LineKind>, k: LineKind)
    ensures Fold(ks + [k]) == Step(Fold(ks), k)
  {
    assert (ks + [k])[..|ks|] == ks;
  }

  lemma {:induction false} FoldErrorPersists(a: seq<LineKind>, b: seq<LineKind>)
    requires Fold(a).Err?
    ensures Fold(a + b) == Fold(a)
    decreases |b|
  {
    if b == [] {
      assert a + b == a;
    } else {
      var b' := b[..|b| - 1];
      FoldErrorPersists(a, b');
      assert a + b == (a + b') + [b[|b| - 1]];
      FoldSnoc(a + b', b[|b| - 1]);
    }
  }

  lemma {:induction false} FoldOkIff(ks: seq<LineKind>)
    ensures Fold(ks).Ok? <==> forall i | 0 <= i < |ks| :: !ks[i].BadIndex?
    decreases |ks|
  {
    if ks != [] {
      var init := ks[..|ks| - 1];
      FoldOkIff(init);
      assert forall i | 0 <= i < |init| :: init[i] == ks[i];
    }
  }

  lemma FoldFirstError(ks: seq<LineKind>, i: nat)
    requires i < |ks| && ks[i].BadIndex?
    requires forall j | 0 <= j < i :: !ks[j].BadIndex?
    ensures Fold(ks) == Err(NotAnInteger(ks[i].token))
  {
    var a := ks[..i];
    FoldOkIff(a);
    assert forall j | 0 <= j < |a| :: a[j] == ks[j];
    FoldSnoc(a, ks[i]);
    assert ks[..i + 1] == a + [ks[i]];
    FoldErrorPersists(ks[..i + 1], ks[i + 1..]);
    assert ks == ks[..i + 1] + ks[i + 1..];
  }

  lemma {:induction false} FoldBinding(ks: seq<LineKind>, i: nat)
    requires Fold(ks).Ok?
    requires i < |ks| && ks[i].Entry?
    requires forall j | i < j < |ks| :: !(ks[j].Entry? && ks[j].key == ks[i].key)
    ensures ks[i].key in Fold(ks).value && Fold(ks).value[ks[i].key] == ks[i].name
    decreases |ks|
  {
    var init := ks[..|ks| - 1];
    if i < |ks| - 1 {
      assert Fold(init).Ok?;
      assert init[i] == ks[i];
      assert forall j | i < j < |init| :: init[j] == ks[j];
      FoldBinding(init, i);
    }
  }

  lemma {:induction false} FoldKeys(ks: seq<LineKind>, k: int)
    requires Fold(ks).Ok? && k in Fold(ks).value
    ensures exists i | 0 <= i < |ks| :: ks[i] == Entry(k, Fold(ks).value[k])
    decreases |ks|
  {
    var init := ks[..|ks| - 1];
    if ks[|ks| - 1] != Entry(k, Fold(ks).value[k]) {
      assert Fold(init).Ok?;
      FoldKeys(init, k);
      var i :| 0 <= i < |init| && init[i] == Entry(k, Fold(init).value[k]);
      assert ks[i] == init[i];
    }
  }

  lemma {:induction false} FoldSkip(a: seq<LineKind>, b: seq<LineKind>)
    ensures Fold(a + [Skip] + b) == Fold(a + b)
    decreases |b|
  {
    if b == [] {
      FoldSnoc(a, Skip);
      assert a + [Skip] + b == a + [Skip];
      assert a + b == a;
    } else {
      var b' := b[..|b| - 1];
      var x := b[|b| - 1];
      FoldSkip(a, b');
      assert a + [Skip] + b == (a + [Skip] + b') + [x];
      assert a + b == (a + b') + [x];
      FoldSnoc(a + [Skip] + b', x);
      FoldSnoc(a + b', x);
    }
  }

  // ---------------------------------------------------------------------------
  // The whole file
  // ---------------------------------------------------------------------------

  /** Loading the lines is folding their classifications. */
  lemma {:induction false} ParseLabelsIsFold(lines: seq<string>)
    ensures ParseLabels(lines) == Fold(Kinds(lines))
    decreases |lines|
  {
    if lines != [] {
      var n := |lines| - 1;
      ParseLabelsIsFold(lines[..n]);
      assert lines[..n] + [lines[n]] == lines;
      KindsAppend(lines[..n], [lines[n]]);
      assert Kinds([lines[n]]) == [ParseLine(lines[n])];
      FoldSnoc(Kinds(lines[..n]), ParseLine(lines[n]));
    }
  }

  /** The file loads exactly when no line has two parts and a non-integer first part. */
  lemma ParseLabelsOkIff(lines: seq<string>)
    ensures ParseLabels(lines).Ok? <==> forall i | 0 <= i < |lines| :: !ParseLine(lines[i]).BadIndex?
  {
    var ks := Kinds(lines);
    ParseLabelsIsFold(lines);
    FoldOkIff(ks);
    forall i | 0 <= i < |lines| ensures ks[i].BadIndex? == ParseLine(lines[i]).BadIndex? {
    }
  }

  /** The error reported is the one raised by the first failing line. */
  lemma ParseLabelsFirstError(lines: seq<string>, i: nat)
    requires i < |lines| && ParseLine(lines[i]).BadIndex?
    requires forall j | 0 <= j < i :: !ParseLine(lines[j]).BadIndex?
    ensures ParseLabels(lines) == Err(NotAnInteger(ParseLine(lines[i]).token))
  {
    ParseLabelsIsFold(lines);
    FoldFirstError(Kinds(lines), i);
  }

  /**
   * Last one wins: an entry line binds its index to its name unless a later
   * entry line uses the same index.
   */
  lemma ParseLabelsBinding(lines: seq<string>, i: nat)
    requires ParseLabels(lines).Ok?
    requires i < |lines| && ParseLine(lines[i]).Entry?
    requires forall j | i < j < |lines| :: !(ParseLine(lines[j]).Entry? && ParseLine(lines[j]).key == ParseLine(lines[i]).key)
    ensures ParseLine(lines[i]).key in ParseLabels(lines).value
    ensures ParseLabels(lines).value[ParseLine(lines[i]).key] == ParseLine(lines[i]).name
  {
    ParseLabelsIsFold(lines);
    FoldBinding(Kinds(lines), i);
  }

  /** Every bound index comes from some entry line that carries exactly the bound name. */
  lemma ParseLabelsKeys(lines: seq<string>, k: int)
    requires ParseLabels(lines).Ok? && k in ParseLabels(lines).value
    ensures exists i | 0 <= i < |lines| :: ParseLine(lines[i]) == Entry(k, ParseLabels(lines).value[k])
  {
    ParseLabelsIsFold(lines);
    FoldKeys(Kinds(lines), k);
  }

  lemma KindsAppend(a: seq<string>, b: seq<string>)
    ensures Kinds(a + b) == Kinds(a) + Kinds(b)
  {
    MapAppend(ParseLine, a, b);
  }

  /** A skipped line (blank, or a single token) can be removed without changing the outcome. */
  lemma SkippedLineHasNoEffect(a: seq<string>, line: string, b: seq<string>)
    requires ParseLine(line).Skip?
    ensures ParseLabels(a + [line] + b) == ParseLabels(a + b)
  {
    KindsAppend(a + [line], b);
    KindsAppend(a, [line]);
    KindsAppend(a, b);
    assert Kinds([line]) == [Skip];
    FoldSkip(Kinds(a), Kinds(b));
    ParseLabelsIsFold(a + [line] + b);
    ParseLabelsIsFold(a + b);
  }

  // ---------------------------------------------------------------------------
  // The loading loop
  // ---------------------------------------------------------------------------

  /**
   * The `for line in f` loop of load_labels and load_label_map: strip, split
   * once, and on two parts assign the lower-cased name to int() of the
   * first part; int() raising ends the loop with the error.
   */
  method ReadLabelLines(lines: seq<string>) returns (r: Result<LabelMap, LoadError>)
    ensures r == ParseLabels(lines)
  {
    var labels: LabelMap := map[];
    var i := 0;
    while i < |lines|
      invariant 0 <= i <= |lines|
      invariant ParseLabels(lines[..i]) == Ok(labels)
    {
      var next := AddLine(labels, lines[i]);
      ParseLabelsSnoc(lines, i);
      if next.Err? {
        ParseLabelsPrefixError(lines, i + 1);
        return next;
      }
      labels := next.value;
      i := i + 1;
    }
    assert lines[..i] == lines;
    r := Ok(labels);
  }

  /**
   * The body of the loop on one line: strip, split once, and on two parts
   * bind int() of the first to the second lower-cased, or raise.
   */
  method AddLine(labels: LabelMap, line: string) returns (r: Result<LabelMap, LoadError>)
    ensures r == Step(Ok(labels), ParseLine(line))
  {
    var parts := SplitOnce(Strip(line));
    StepOfParts(labels, line);
    if |parts| == 2 {
      var k := ParseInt(parts[0]);
      if k.None? {
        return Err(NotAnInteger(parts[0]));
      }
      return Ok(labels[k.value := Lower(parts[1])]);
    }
    return Ok(labels);
  }

  /** One Step on a line, in terms of the parts its stripped text splits into. */
  lemma StepOfParts(labels: LabelMap, line: string)
    ensures var parts := SplitOnce(Strip(line));
      && (|parts| != 2 ==> Step(Ok(labels), ParseLine(line)) == Ok(labels))
      && (|parts| == 2 && ParseInt(parts[0]).None? ==> Step(Ok(labels), ParseLine(line)) == Err(NotAnInteger(parts[0])))
      && (|parts| == 2 && ParseInt(parts[0]).Some? ==>
            Step(Ok(labels), ParseLine(line)) == Ok(labels[ParseInt(parts[0]).value := Lower(parts[1])]))
  {
  }

  /** Reading one more line applies one more Step. */
  lemma ParseLabelsSnoc(lines: seq<string>, i: nat)
    requires i < |lines|
    ensures ParseLabels(lines[..i + 1]) == Step(ParseLabels(lines[..i]), ParseLine(lines[i]))
  {
    assert lines[..i + 1][..i] == lines[..i];
  }

  /** Once the lines read so far have raised, the rest of the file does not matter. */
  lemma ParseLabelsPrefixError(lines: seq<string>, n: nat)
    requires n <= |lines| && ParseLabels(lines[..n]).Err?
    ensures ParseLabels(lines) == ParseLabels(lines[..n])
  {
    var a, b := lines[..n], lines[n..];
    assert a + b == lines;
    ParseLabelsIsFold(a);
    ParseLabelsIsFold(lines);
    KindsAppend(a, b);
    FoldErrorPersists(Kinds(a), Kinds(b));
  }
}

/**
 * The command-line recognizer: the fallback label-file writer, the loader
 * that falls back to a fixed table, the display names and top five of a
 * prediction, and the image-selection menu. The model's scores, the files
 * that exist, the directory listing and the lines typed at the console are
 * inputs.
 */
module Cli {
  import opened Wrappers
  import opened Text
  import opened LabelFile
  import opened Naming
  import opened Scores

  // ---------------------------------------------------------------------------
  // Label file
  // ---------------------------------------------------------------------------

  /** basic_labels, in insertion order: written when the label map cannot be downloaded. */
  const BasicLabels: seq<(int, string)> := [
    (1680, "Sunflower"), (1220, "Rose"), (1993, "Tulip"), (1896, "Daisy"),
    (652, "Dandelion"), (945, "Lily"), (812, "Orchid")
  ]

  /** The table load_label_map returns when reading the file raises. */
  const FallbackTable: LabelMap := map[
    1680 := "sunflower", 1220 := "rose", 1993 := "tulip", 1945 := "daisy", 410 := "rose",
    1752 := "daisy", 652 := "dandelion", 945 := "lily", 812 := "orchid"
  ]

  /** f"{k} {v}\n" */
  function LineOf(e: (int, string)): string {
    IntToString(e.0) + " " + e.1 + "\n"
  }

  function FileLines(entries: seq<(int, string)>): seq<string> {
    seq(|entries|, i requires 0 <= i < |entries| => LineOf(entries[i]))
  }

  /** The text the writer loop leaves in the file: one line per entry, in order. */
  method WriteLabelFile(entries: seq<(int, string)>) returns (text: string)
    ensures text == Concat(FileLines(entries))
  {
    text := "";
    for i := 0 to |entries|
      invariant text == Concat(FileLines(entries[..i]))
    {
      var (k, v) := entries[i];
      FileLinesSnoc(entries, i);
      ConcatSnoc(FileLines(entries[..i]), LineOf(entries[i]));
      text := text + (IntToString(k) + " " + v + "\n");
    }
    assert entries[..|entries|] == entries;
  }

  lemma FileLinesSnoc(entries: seq<(int, string)>, i: nat)
    requires i < |entries|
    ensures FileLines(entries[..i + 1]) == FileLines(entries[..i]) + [LineOf(entries[i])]
  {
    var a, b := FileLines(entries[..i + 1]), FileLines(entries[..i]) + [LineOf(entries[i])];
    assert |a| == |b|;
    forall j | 0 <= j < |a| ensures a[j] == b[j] {
      assert entries[..i + 1][j] == entries[j];
    }
  }

  /** The dictionary the entries denote once read back: each key bound to its name lower-cased, the last one winning. */
  function Bindings(entries: seq<(int, string)>): LabelMap
    decreases |entries|
  {
    if entries == [] then map[]
    else
      var e := entries[|entries| - 1];
      Bindings(entries[..|entries| - 1])[e.0 := Lower(e.1)]
  }

  /** A name that survives a write and a read: not blank at either end, no line break inside. */
  predicate WellFormedName(v: string) {
    && v != []
    && !IsSpace(v[0]) && !IsSpace(v[|v| - 1])
    && forall i | 0 <= i < |v| :: v[i] != '\n' && v[i] != '\r'
  }

  /** One written line reads back as its entry. */
  lemma LineOfParses(e: (int, string))
    requires WellFormedName(e.1)
    ensures ParseLine(LineOf(e)) == Entry(e.0, Lower(e.1))
  {
    var tok := IntToString(e.0);
    IntToStringIsToken(e.0);
    ParseIntOfIntToString(e.0);
    var m := tok + " " + e.1;
    assert LineOf(e) == [] + m + "\n";
    StripOf([], m, "\n");
    ParseLineOf(LineOf(e), tok, " ", e.1);
  }

  /** A written line holds one "\n", at its end, and no carriage return. */
  lemma LineOfShape(e: (int, string))
    requires WellFormedName(e.1)
    ensures var l := LineOf(e); l != [] && l[|l| - 1] == '\n'
    ensures var l := LineOf(e); forall j | 0 <= j < |l| - 1 :: l[j] != '\n'
    ensures var l := LineOf(e); forall j | 0 <= j < |l| :: l[j] != '\r'
  {
    IntToStringIsToken(e.0);
    var tok := IntToString(e.0);
    var l := LineOf(e);
    forall j | 0 <= j < |l| ensures l[j] != '\r' && (j < |l| - 1 ==> l[j] != '\n') {
      if j < |tok| {
        assert l[j] == tok[j];
      } else if |tok| < j < |l| - 1 {
        assert l[j] == e.1[j - |tok| - 1];
      }
    }
  }

  /** Reading the written file gives back its lines. */
  lemma ReadWrittenLines(entries: seq<(int, string)>)
    requires forall i | 0 <= i < |entries| :: WellFormedName(entries[i].1)
    ensures ReadLines(Concat(FileLines(entries))) == FileLines(entries)
  {
    var ls := FileLines(entries);
    forall i | 0 <= i < |ls|
      ensures ls[i] != [] && ls[i][|ls[i]| - 1] == '\n'
      ensures forall j | 0 <= j < |ls[i]| - 1 :: ls[i][j] != '\n'
      ensures forall j | 0 <= j < |ls[i]| :: ls[i][j] != '\r'
    {
      LineOfShape(entries[i]);
    }
    ConcatWithoutCR(ls);
    TranslateWithoutCR(Concat(ls));
    SplitLinesOfConcat(ls);
  }

  lemma {:induction false} FoldWrittenLines(entries: seq<(int, string)>)
    requires forall i | 0 <= i < |entries| :: WellFormedName(entries[i].1)
    ensures ParseLabels(FileLines(entries)) == Ok(Bindings(entries))
    decreases |entries|
  {
    if entries != [] {
      var n := |entries| - 1;
      var init, e := entries[..n], entries[n];
      FoldWrittenLines(init);
      FileLinesSnoc(entries, n);
      assert entries[..n + 1] == entries;
      LineOfParses(e);
      assert FileLines(entries)[..n] == FileLines(init);
    }
  }

  /**
   * Round trip: a file written from entries with well-formed names loads,
   * without error, as the entries' bindings.
   */
  lemma WriteThenParse(entries: seq<(int, string)>)
    requires forall i | 0 <= i < |entries| :: WellFormedName(entries[i].1)
    ensures ParseLabels(ReadLines(Concat(FileLines(entries)))) == Ok(Bindings(entries))
  {
    ReadWrittenLines(entries);
    FoldWrittenLines(entries);
  }

  /** With distinct keys, the bindings map each key to its own name lower-cased and hold no other key. */
  lemma {:induction false} BindingsOfDistinctKeys(entries: seq<(int, string)>)
    requires forall i, j | 0 <= i < j < |entries| :: entries[i].0 != entries[j].0
    ensures forall i | 0 <= i < |entries| :: entries[i].0 in Bindings(entries) && Bindings(entries)[entries[i].0] == Lower(entries[i].1)
    ensures forall k | k in Bindings(entries) :: exists i | 0 <= i < |entries| :: entries[i].0 == k
    decreases |entries|
  {
    if entries != [] {
      var init := entries[..|entries| - 1];
      BindingsOfDistinctKeys(init);
      forall k | k in Bindings(entries) ensures exists i | 0 <= i < |entries| :: entries[i].0 == k {
        if k != entries[|entries| - 1].0 {
          var i :| 0 <= i < |init| && init[i].0 == k;
          assert entries[i].0 == k;
        }
      }
    }
  }

  /** The fallback file, written and read back, binds its seven keys to the lower-cased names. */
  lemma BasicLabelsRoundTrip()
    ensures ParseLabels(ReadLines(Concat(FileLines(BasicLabels)))) == Ok(map[
      1680 := "sunflower", 1220 := "rose", 1993 := "tulip", 1896 := "daisy",
      652 := "dandelion", 945 := "lily", 812 := "orchid"])
  {
    BasicLabelsWellFormed();
    WriteThenParse(BasicLabels);
    BasicLabelsBindings();
  }

  lemma BasicLabelsWellFormed()
    ensures forall i | 0 <= i < |BasicLabels| :: WellFormedName(BasicLabels[i].1)
  {
    forall i | 0 <= i < |BasicLabels| ensures WellFormedName(BasicLabels[i].1) {
      var v := BasicLabels[i].1;
      assert forall j | 0 <= j < |v| :: IsLetter(v[j]);
    }
  }

  lemma BasicLabelsBindings()
    ensures Bindings(BasicLabels) == map[
      1680 := "sunflower", 1220 := "rose", 1993 := "tulip", 1896 := "daisy",
      652 := "dandelion", 945 := "lily", 812 := "orchid"]
  {
    var m := map[
      1680 := "sunflower", 1220 := "rose", 1993 := "tulip", 1896 := "daisy",
      652 := "dandelion", 945 := "lily", 812 := "orchid"];
    BindingsOfDistinctKeys(BasicLabels);
    assert Lower("Sunflower") == "sunflower";
    assert Lower("Rose") == "rose";
    assert Lower("Tulip") == "tulip";
    assert Lower("Daisy") == "daisy";
    assert Lower("Dandelion") == "dandelion";
    assert Lower("Lily") == "lily";
    assert Lower("Orchid") == "orchid";
    forall k | k in Bindings(BasicLabels) ensures k in m {
      var i :| 0 <= i < |BasicLabels| && BasicLabels[i].0 == k;
    }
    var b := BasicLabels;
    assert b[0].0 == 1680 && b[1].0 == 1220 && b[2].0 == 1993 && b[3].0 == 1896;
    assert b[4].0 == 652 && b[5].0 == 945 && b[6].0 == 812;
  }

  /**
   * load_label_map: any exception (a file that is missing or cannot be read,
   * int() raising) throws away what was read so far and gives the fallback
   * table.
   */
  method LoadLabelMap(file: LabelSource) returns (m: LabelMap)
    ensures !file.Readable? ==> m == FallbackTable
    ensures file.Readable? && ParseLabels(ReadLines(file.text)).Ok? ==> m == ParseLabels(ReadLines(file.text)).value
    ensures file.Readable? && ParseLabels(ReadLines(file.text)).Err? ==> m == FallbackTable
  {
    if !file.Readable? {
      return FallbackTable;
    }
    var r := ReadLabelLines(ReadLines(file.text));
    if r.Err? {
      return FallbackTable;
    }
    m := r.value;
  }

  /** The fallback table's nine entries, two of them "rose" and two "daisy". */
  lemma FallbackTableFacts()
    ensures |FallbackTable| == 9
    ensures FallbackTable[1220] == FallbackTable[410] == "rose"
    ensures FallbackTable[1945] == FallbackTable[1752] == "daisy"
  {
    var m := map[1680 := "sunflower", 1220 := "rose", 1993 := "tulip"];
    assert |m| == 3;
    m := m[1945 := "daisy"][410 := "rose"][1752 := "daisy"];
    assert |m| == 6;
    m := m[652 := "dandelion"][945 := "lily"][812 := "orchid"];
    assert |m| == 9;
    assert m == FallbackTable;
  }

  // ---------------------------------------------------------------------------
  // Prediction
  // ---------------------------------------------------------------------------

  /** get_pretty_flower_name(plant_labels.get(c, f"plant {c}")) */
  function DisplayName(labels: LabelMap, c: nat): string {
    PrettyName(if c in labels then labels[c] else "plant " + IntToString(c))
  }

  /** An index the map does not know is displayed as "Plant <index>". */
  lemma UnknownIndexDisplayName(labels: LabelMap, c: nat)
    requires c !in labels
    ensures DisplayName(labels, c) == "Plant " + IntToString(c)
  {
    NatToStringDigits(c);
    PlaceholderPrettyName(NatToString(c));
  }

  /** The best match's display name and the top five (display name, score) pairs. */
  datatype Prediction = Prediction(best: string, top: seq<(string, real)>)

  /** The result part of predict_flower; None is the exception np.argmax raises on an empty vector. */
  function PredictFlower(labels: LabelMap, scores: seq<real>): (r: Option<Prediction>)
    ensures r.None? <==> scores == []
  {
    if scores == [] then None
    else
      var t := TopFive(scores);
      Some(Prediction(DisplayName(labels, ArgMax(scores)),
        seq(|t|, i requires 0 <= i < |t| => (DisplayName(labels, t[i]), scores[t[i]]))))
  }

  /**
   * The top list is min(5, n) pairs for distinct indices `t`, each index with
   * its own display name and score, scores non-increasing, no index outside
   * `t` scoring higher; the best match names the first index of maximum score.
   */
  lemma PredictFlowerSpec(labels: LabelMap, scores: seq<real>, c: nat) returns (t: seq<nat>)
    requires c < |scores|
    requires forall j | 0 <= j < |scores| :: scores[j] <= scores[c]
    requires forall j | 0 <= j < c :: scores[j] < scores[c]
    ensures PredictFlower(labels, scores).Some?
    ensures PredictFlower(labels, scores).value.best == DisplayName(labels, c)
    ensures var top := PredictFlower(labels, scores).value.top;
      && |top| == |t| == (if |scores| < 5 then |scores| else 5)
      && Distinct(t) && InRange(t, |scores|)
      && (forall i | 0 <= i < |t| :: top[i] == (DisplayName(labels, t[i]), scores[t[i]]))
      && (forall i, j | 0 <= i < j < |top| :: top[i].1 >= top[j].1)
      && (forall x, i | 0 <= x < |scores| && x !in t && 0 <= i < |t| :: scores[x] <= top[i].1)
      && top[0].1 == scores[c]
  {
    ArgMaxUnique(scores, c);
    t := TopFive(scores);
    TopFiveSpec(scores);
    TopFiveHeadIsMax(scores);
  }

  // ---------------------------------------------------------------------------
  // Image selection
  // ---------------------------------------------------------------------------

  const ImageExtensions: seq<string> := [".jpg", ".jpeg", ".png", ".webp", ".bmp"]

  /** f.lower().endswith(image_extensions) */
  predicate IsImageName(f: string) {
    exists i | 0 <= i < |ImageExtensions| :: EndsWith(Lower(f), ImageExtensions[i])
  }

  /** The names of the listing offered in option 2, in listing order. */
  function FilterImages(listing: seq<string>): (r: seq<string>)
    ensures |r| <= |listing|
    ensures forall f | f in r :: f in listing && IsImageName(f)
    ensures forall f | f in listing && IsImageName(f) :: f in r
    decreases |listing|
  {
    if listing == [] then []
    else (if IsImageName(listing[0]) then [listing[0]] else []) + FilterImages(listing[1..])
  }

  /** Filtering keeps the listing's order: it distributes over concatenation. */
  lemma {:induction false} FilterImagesAppend(a: seq<string>, b: seq<string>)
    ensures FilterImages(a + b) == FilterImages(a) + FilterImages(b)
    decreases |a|
  {
    if a == [] {
      assert a + b == b;
    } else {
      var head := if IsImageName(a[0]) then [a[0]] else [];
      assert (a + b)[0] == a[0];
      assert (a + b)[1..] == a[1..] + b;
      assert FilterImages(a + b) == head + FilterImages(a[1..] + b);
      FilterImagesAppend(a[1..], b);
      assert FilterImages(a) == head + FilterImages(a[1..]);
    }
  }

  lemma ImageNameExamples()
    ensures IsImageName("Rose.JPG")
    ensures !IsImageName("notes.txt")
  {
    assert Lower("Rose.JPG") == "rose.jpg";
    assert EndsWith(Lower("Rose.JPG"), ImageExtensions[0]);
    assert Lower("notes.txt") == "notes.txt";
    assert "notes.txt"[5..] == ".txt";
    assert "notes.txt"[4..] == "s.txt";
    forall i | 0 <= i < |ImageExtensions| ensures !EndsWith("notes.txt", ImageExtensions[i]) {
      assert ImageExtensions[i][|ImageExtensions[i]| - 3] != 't';
    }
  }

  /** What the answer to "Select image number" leads to. */
  datatype Selection = Back | Picked(path: string) | InvalidSelection | InvalidInput

  /** int(answer) - 1: -1 goes back, an index into the images picks one, anything else is rejected. */
  function ChooseImage(images: seq<string>, answer: string): (r: Selection)
    ensures r == InvalidInput <==> ParseInt(answer).None?
    ensures r == Back <==> ParseInt(answer) == Some(0)
    ensures r.Picked? <==> ParseInt(answer).Some? && 1 <= ParseInt(answer).value <= |images|
    ensures r.Picked? ==> r.path == images[ParseInt(answer).value - 1]
    ensures r == InvalidSelection <==> ParseInt(answer).Some? && (ParseInt(answer).value < 0 || ParseInt(answer).value > |images|)
  {
    match ParseInt(answer)
    case None => InvalidInput
    case Some(n) =>
      var choice := n - 1;
      if choice == -1 then Back
      else if 0 <= choice < |images| then Picked(images[choice])
      else InvalidSelection
  }

  /** The number printed beside an image (counting from 1) selects that image. */
  lemma ChoosePrintedNumber(images: seq<string>, k: nat)
    requires 1 <= k <= |images|
    ensures ChooseImage(images, IntToString(k)) == Picked(images[k - 1])
  {
    ParseIntOfIntToString(k);
  }

  /** How get_image_path ends: a path, sys.exit(0), or input() running out of lines. */
  datatype MenuOutcome = Chosen(path: string) | Exit | EndOfInput

  /**
   * The menu loop as a function of the console lines still to be read,
   * the names the directory lists and the paths that exist.
   */
  function Menu(inputs: seq<string>, listing: seq<string>, existing: set<string>): MenuOutcome
    decreases |inputs|
  {
    if inputs == [] then EndOfInput
    else
      var choice := Strip(inputs[0]);
      if choice == "1" then
        if |inputs| < 2 then EndOfInput
        else
          var path := StripQuotes(Strip(inputs[1]));
          if path in existing then Chosen(path) else Menu(inputs[2..], listing, existing)
      else if choice == "2" then
        var images := FilterImages(listing);
        if images == [] then Menu(inputs[1..], listing, existing)
        else if |inputs| < 2 then EndOfInput
        else match ChooseImage(images, inputs[1])
          case Picked(p) => Chosen(p)
          case _ => Menu(inputs[2..], listing, existing)
      else if choice == "3" then Exit
      else Menu(inputs[1..], listing, existing)
  }

  /** get_image_path: the `while True` menu loop reading one line per prompt. */
  method GetImagePath(inputs: seq<string>, listing: seq<string>, existing: set<string>) returns (outcome: MenuOutcome)
    ensures outcome == Menu(inputs, listing, existing)
  {
    var pos := 0;
    while pos < |inputs|
      invariant pos <= |inputs|
      invariant Menu(inputs[pos..], listing, existing) == Menu(inputs, listing, existing)
      decreases |inputs| - pos
    {
      var rest := inputs[pos..];
      assert rest[0] == inputs[pos];
      var choice := Strip(inputs[pos]);
      if choice == "1" {
        if pos + 1 >= |inputs| {
          return EndOfInput;
        }
        assert rest[1] == inputs[pos + 1];
        var imagePath := StripQuotes(Strip(inputs[pos + 1]));
        if imagePath !in existing {
          assert rest[2..] == inputs[pos + 2..];
          pos := pos + 2;
          continue;
        }
        return Chosen(imagePath);
      } else if choice == "2" {
        var images := FilterImages(listing);
        if images == [] {
          assert rest[1..] == inputs[pos + 1..];
          pos := pos + 1;
          continue;
        }
        if pos + 1 >= |inputs| {
          return EndOfInput;
        }
        assert rest[1] == inputs[pos + 1];
        var selection := ChooseImage(images, inputs[pos + 1]);
        if selection.Picked? {
          return Chosen(selection.path);
        }
        assert rest[2..] == inputs[pos + 2..];
        pos := pos + 2;
      } else if choice == "3" {
        return Exit;
      } else {
        assert rest[1..] == inputs[pos + 1..];
        pos := pos + 1;
      }
    }
    return EndOfInput;
  }

  /** A chosen path is either one that exists or an image name from the listing. */
  lemma {:induction false} MenuChosenPath(inputs: seq<string>, listing: seq<string>, existing: set<string>)
    requires Menu(inputs, listing, existing).Chosen?
    ensures var p := Menu(inputs, listing, existing).path;
      p in existing || (p in listing && IsImageName(p))
    decreases |inputs|
  {
    var choice := Strip(inputs[0]);
    if choice == "1" {
      if StripQuotes(Strip(inputs[1])) !in existing {
        MenuChosenPath(inputs[2..], listing, existing);
      }
    } else if choice == "2" {
      var images := FilterImages(listing);
      if images == [] {
        MenuChosenPath(inputs[1..], listing, existing);
      } else if !ChooseImage(images, inputs[1]).Picked? {
        MenuChosenPath(inputs[2..], listing, existing);
      }
    } else {
      MenuChosenPath(inputs[1..], listing, existing);
    }
  }

  /** Answering 0 to the image number goes back to the menu, which reads on from the next line. */
  lemma MenuBack(inputs: seq<string>, listing: seq<string>, existing: set<string>)
    requires |inputs| >= 2 && Strip(inputs[0]) == "2" && FilterImages(listing) != []
    requires ParseInt(inputs[1]) == Some(0)
    ensures Menu(inputs, listing, existing) == Menu(inputs[2..], listing, existing)
  {
  }

  /** Option 2 followed by the number printed beside an image returns that image. */
  lemma MenuPicksPrintedNumber(inputs: seq<string>, listing: seq<string>, existing: set<string>, k: nat)
    requires |inputs| >= 2 && Strip(inputs[0]) == "2"
    requires 1 <= k <= |FilterImages(listing)| && inputs[1] == IntToString(k)
    ensures Menu(inputs, listing, existing) == Chosen(FilterImages(listing)[k - 1])
  {
    ChoosePrintedNumber(FilterImages(listing), k);
  }

  /** A path that does not exist sends the user back to the menu. */
  lemma MenuRetriesMissingPath(inputs: seq<string>, listing: seq<string>, existing: set<string>)
    requires |inputs| >= 2 && Strip(inputs[0]) == "1"
    requires StripQuotes(Strip(inputs[1])) !in existing
    ensures Menu(inputs, listing, existing) == Menu(inputs[2..], listing, existing)
  {
  }
}

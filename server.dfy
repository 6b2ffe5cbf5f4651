/**
 * The HTTP server's label loading and the result assembly of its /predict
 * handler. The model's score vector (the TFLite output) is an input here.
 * The label map is loaded once at start-up and never changes afterwards.
 */
module Server {
  import opened Wrappers
  import opened Text
  import opened LabelFile
  import opened Naming
  import opened Scores

  /**
   * load_labels: a missing file gives the empty map. A file that exists but
   * cannot be opened or read raises, and so does int() on a first token that
   * is not a number; neither exception is caught, so both are returned as the
   * error.
   */
  method LoadLabels(file: LabelSource) returns (r: Result<LabelMap, LoadError>)
    ensures file.Missing? ==> r == Ok(map[])
    ensures file.Unreadable? ==> r == Err(ReadFailed)
    ensures file.Readable? ==> r == ParseLabels(ReadLines(file.text))
  {
    match file
    case Missing =>
      return Ok(map[]);
    case Unreadable =>
      return Err(ReadFailed);
    case Readable(text) =>
      r := ReadLabelLines(ReadLines(text));
  }

  /** The JSON body /predict returns, without its confidence. */
  datatype Response = Response(name: string, scientificName: string, description: string, rawLabel: string)

  /** np.argmax of an empty vector raises ValueError. */
  datatype PredictError = EmptyScores

  const DescriptionPrefix := "This appears to be a healthy "

  /** plant_labels.get(c, f"Plant {c}") */
  function RawName(labels: LabelMap, c: nat): (r: string)
    ensures c in labels ==> r == labels[c]
    ensures c !in labels ==> r == "Plant " + IntToString(c)
  {
    if c in labels then labels[c] else "Plant " + IntToString(c)
  }

  /** The response fields built from the raw label. */
  function Describe(raw: string): Response {
    var name := PrettyName(raw);
    Response(name, Title(raw), DescriptionPrefix + name + ".", raw)
  }

  /** The result part of /predict: argmax, label lookup and response assembly. */
  function Predict(labels: LabelMap, scores: seq<real>): (r: Result<Response, PredictError>)
    ensures r.Err? <==> scores == []
  {
    if scores == [] then Err(EmptyScores)
    else Ok(Describe(RawName(labels, ArgMax(scores))))
  }

  /**
   * The response names the first index holding the maximum score: its raw
   * label is the map's entry or "Plant <index>", its name is that label's
   * display name, its scientific name is the label title-cased (same letters
   * up to case) and the description mentions the name.
   */
  lemma PredictSpec(labels: LabelMap, scores: seq<real>, c: nat)
    requires c < |scores|
    requires forall j | 0 <= j < |scores| :: scores[j] <= scores[c]
    requires forall j | 0 <= j < c :: scores[j] < scores[c]
    ensures Predict(labels, scores).Ok?
    ensures var resp := Predict(labels, scores).value;
      && resp.rawLabel == (if c in labels then labels[c] else "Plant " + IntToString(c))
      && resp.name == PrettyName(resp.rawLabel)
      && resp.description == DescriptionPrefix + resp.name + "."
      && resp.scientificName == Title(resp.rawLabel)
      && |resp.scientificName| == |resp.rawLabel|
      && Lower(resp.scientificName) == Lower(resp.rawLabel)
      && DescriptionName(resp.description) == Some(resp.name)
  {
    ArgMaxUnique(scores, c);
    var raw := RawName(labels, c);
    TitleOnlyChangesCase(raw);
    DescriptionRoundTrip(PrettyName(raw));
  }

  /** The name a description speaks of, if it has the description's form. */
  function DescriptionName(d: string): (r: Option<string>)
    ensures r.Some? ==> d == DescriptionPrefix + r.value + "."
  {
    var n := |DescriptionPrefix|;
    if |d| > n && d[..n] == DescriptionPrefix && d[|d| - 1] == '.' then
      assert d == d[..n] + d[n..|d| - 1] + ".";
      Some(d[n..|d| - 1])
    else None
  }

  /** The description template loses nothing: the name can be read back from it. */
  lemma DescriptionRoundTrip(name: string)
    ensures DescriptionName(DescriptionPrefix + name + ".") == Some(name)
  {
    var d := DescriptionPrefix + name + ".";
    assert d[..|DescriptionPrefix|] == DescriptionPrefix;
    assert d[|DescriptionPrefix|..|d| - 1] == name;
  }

  /** The name is always one of the seven display names or the capitalized raw label. */
  lemma PredictNameRange(labels: LabelMap, scores: seq<real>)
    requires scores != []
    ensures var resp := Predict(labels, scores).value;
      resp.name == Capitalize(resp.rawLabel) || exists i | 0 <= i < |Enhancements| :: resp.name == Enhancements[i].1
  {
  }

  /**
   * An index the label map does not know is reported as "Plant <index>" in
   * the name, the scientific name and the raw label alike.
   */
  lemma UnknownIndexResponse(labels: LabelMap, scores: seq<real>)
    requires scores != [] && ArgMax(scores) !in labels
    ensures var resp := Predict(labels, scores).value;
      var p := "Plant " + IntToString(ArgMax(scores));
      resp.rawLabel == p && resp.name == p && resp.scientificName == p
  {
    var c := ArgMax(scores);
    var d := NatToString(c);
    NatToStringDigits(c);
    PlaceholderPrettyName(d);
    PlaceholderTitle(d);
  }

  /** Title-casing leaves "Plant <digits>" unchanged. */
  lemma PlaceholderTitle(d: string)
    requires forall i | 0 <= i < |d| :: IsDigit(d[i])
    ensures Title("Plant " + d) == "Plant " + d
  {
    var t := "Plant " + d;
    forall i | 0 <= i < |t| ensures Title(t)[i] == t[i] {
      if i >= 6 {
        assert t[i] == d[i - 6];
      }
    }
  }

  /** The example scores [0.1, 0.7, 0.2] with index 1 labelled "rose" give the Rose response. */
  lemma PredictExample()
    ensures Predict(map[1 := "rose"], [0.1, 0.7, 0.2]) ==
      Ok(Response("Rose", "Rose", "This appears to be a healthy Rose.", "rose"))
  {
    var s: seq<real> := [0.1, 0.7, 0.2];
    ArgMaxUnique(s, 1);
    assert ArgMax(s) == 1;
    assert RawName(map[1 := "rose"], 1) == "rose";
    assert Lower("rose") == "rose";
    assert Occurs("rose", "rose");
    assert PrettyName("rose") == "Rose";
    assert Title("rose") == "Rose";
    assert DescriptionPrefix + "Rose" + "." == "This appears to be a healthy Rose.";
  }
}

/**
 * The display-name rule shared by get_pretty_name (server.py) and
 * get_pretty_flower_name (src/main.py): walk a fixed, ordered table of
 * flower substrings and return the display name of the first one found in
 * the lower-cased label; when none is found, return label.capitalize().
 */
module Naming {
  import opened Wrappers
  import opened Text

  /** The enhancements table, in the dictionary's insertion order: (substring, display name). */
  const Enhancements: seq<(string, string)> := [
    ("sunflower", "Sunflower"),
    ("rose", "Rose"),
    ("tulip", "Tulip"),
    ("daisy", "Daisy"),
    ("dandelion", "Dandelion"),
    ("lily", "Lily"),
    ("orchid", "Orchid")
  ]

  /** Index of the first row of `table` whose substring occurs in `text`. */
  function FirstMatch(table: seq<(string, string)>, text: string): (r: Option<nat>)
    ensures r.Some? ==> r.value < |table| && Occurs(table[r.value].0, text)
    ensures r.Some? ==> forall j | 0 <= j < r.value :: !Occurs(table[j].0, text)
    ensures r.None? ==> forall j | 0 <= j < |table| :: !Occurs(table[j].0, text)
    decreases |table|
  {
    if table == [] then None
    else if Occurs(table[0].0, text) then Some(0)
    else match FirstMatch(table[1..], text)
      case None => None
      case Some(i) => Some(i + 1)
  }

  /** The display name of a raw label. */
  function PrettyName(raw: string): (r: string)
    ensures r == Capitalize(raw) || exists i | 0 <= i < |Enhancements| :: r == Enhancements[i].1
  {
    match FirstMatch(Enhancements, Lower(raw))
    case Some(i) => Enhancements[i].1
    case None => Capitalize(raw)
  }

  // ---------------------------------------------------------------------------
  // Facts about the table
  // ---------------------------------------------------------------------------

  /** Each display name lower-cases to its own substring, and the display names differ. */
  lemma TableFacts()
    ensures forall i | 0 <= i < |Enhancements| :: Lower(Enhancements[i].1) == Enhancements[i].0
    ensures forall i, j | 0 <= i < j < |Enhancements| :: Enhancements[i].1 != Enhancements[j].1
    ensures forall i | 0 <= i < |Enhancements| :: Enhancements[i].0 != [] && Enhancements[i].1 != []
  {
    assert Lower("Sunflower") == "sunflower";
    assert Lower("Rose") == "rose";
    assert Lower("Tulip") == "tulip";
    assert Lower("Daisy") == "daisy";
    assert Lower("Dandelion") == "dandelion";
    assert Lower("Lily") == "lily";
    assert Lower("Orchid") == "orchid";
  }

  // ---------------------------------------------------------------------------
  // The rule
  // ---------------------------------------------------------------------------

  /**
   * A label gets the i-th display name exactly when the i-th substring
   * occurs in the lower-cased label and no earlier one does.
   */
  lemma PrettyNameIsFirstMatch(raw: string, i: nat)
    requires i < |Enhancements|
    ensures PrettyName(raw) == Enhancements[i].1 <==>
            (Occurs(Enhancements[i].0, Lower(raw)) && forall j | 0 <= j < i :: !Occurs(Enhancements[j].0, Lower(raw)))
  {
    TableFacts();
    if PrettyName(raw) == Enhancements[i].1 && FirstMatch(Enhancements, Lower(raw)).None? {
      LowerCapitalize(raw);
      OccursInItself(Enhancements[i].0);
    }
  }

  /** When no substring occurs, the label is only capitalized. */
  lemma PrettyNameFallsBackToCapitalize(raw: string)
    requires forall j | 0 <= j < |Enhancements| :: !Occurs(Enhancements[j].0, Lower(raw))
    ensures PrettyName(raw) == Capitalize(raw)
  {
  }

  /** Only the empty label has an empty display name. */
  lemma PrettyNameEmptyIff(raw: string)
    ensures PrettyName(raw) == [] <==> raw == []
  {
    TableFacts();
    if raw == [] {
      assert Lower(raw) == [];
      assert forall j | 0 <= j < |Enhancements| :: !Occurs(Enhancements[j].0, Lower(raw));
    }
  }

  /** Prettifying a display name again changes nothing. */
  lemma PrettyNameIdempotent(raw: string)
    ensures PrettyName(PrettyName(raw)) == PrettyName(raw)
  {
    TableFacts();
    match FirstMatch(Enhancements, Lower(raw))
    case Some(i) =>
      var p := Enhancements[i].1;
      OccursInItself(Enhancements[i].0);
      if i > 0 {
        PrettyNameOfDisplayName(i);
      }
    case None =>
      LowerCapitalize(raw);
      CapitalizeIdempotent(raw);
  }

  /** Each display name is its own display name. */
  lemma PrettyNameOfDisplayName(i: nat)
    requires i < |Enhancements|
    ensures PrettyName(Enhancements[i].1) == Enhancements[i].1
  {
    TableFacts();
    OccursInItself(Enhancements[i].0);
    var l := Lower(Enhancements[i].1);
    assert l == Enhancements[i].0;
    forall j | 0 <= j < i ensures !Occurs(Enhancements[j].0, l) {
      EarlierKeyAbsent(i, j);
    }
    PrettyNameIsFirstMatch(Enhancements[i].1, i);
  }

  /** No substring of the table occurs in a later one, so each display name maps to itself. */
  lemma EarlierKeyAbsent(i: nat, j: nat)
    requires j < i < |Enhancements|
    ensures !Occurs(Enhancements[j].0, Enhancements[i].0)
  {
    var k, t := Enhancements[j].0, Enhancements[i].0;
    if i == 4 && j == 3 {
      SkipMismatch("daisy", "dandelion", 2);
      SkipMismatch("daisy", "andelion", 0);
      SkipMismatch("daisy", "ndelion", 0);
      SkipMismatch("daisy", "delion", 1);
      SkipMismatch("daisy", "elion", 0);
    } else if i == 6 && j == 1 {
      SkipMismatch("rose", "orchid", 0);
      SkipMismatch("rose", "rchid", 1);
      SkipMismatch("rose", "chid", 0);
    } else if i == 6 && j == 3 {
      SkipMismatch("daisy", "orchid", 0);
      SkipMismatch("daisy", "rchid", 0);
    } else if |k| <= |t| {
      NotOccursWithoutFirstChar(k, t);
    }
  }

  /** A key whose first character appears nowhere in the text does not occur in it. */
  lemma {:induction false} NotOccursWithoutFirstChar(k: string, t: string)
    requires k != []
    requires forall i | 0 <= i < |t| :: t[i] != k[0]
    ensures !Occurs(k, t)
    decreases |t|
  {
    if |k| <= |t| {
      assert t[..|k|][0] == t[0];
      NotOccursWithoutFirstChar(k, t[1..]);
    }
  }

  /** A mismatch at the front of the text means the search goes on one character later. */
  lemma SkipMismatch(k: string, t: string, m: nat)
    requires m < |k| && m < |t| && t[m] != k[m]
    ensures Occurs(k, t) == Occurs(k, t[1..])
  {
    if |k| <= |t| {
      assert t[..|k|][m] == t[m];
    }
  }

  /** A key found at position p of the text occurs in it. */
  lemma {:induction false} OccursAt(k: string, t: string, p: nat)
    requires p + |k| <= |t| && t[p..p + |k|] == k
    ensures Occurs(k, t)
    decreases p
  {
    if p > 0 {
      assert t[1..][p - 1..p - 1 + |k|] == t[p..p + |k|];
      OccursAt(k, t[1..], p - 1);
    }
  }

  /**
   * A key made of non-digits occurs in a text followed by digits only if it
   * occurs in the text itself: no window can reach into the digits.
   */
  lemma {:induction false} OccursBeforeDigits(k: string, p: string, d: string)
    requires k != [] && forall i | 0 <= i < |k| :: !IsDigit(k[i])
    requires forall i | 0 <= i < |d| :: IsDigit(d[i])
    ensures Occurs(k, p + d) == Occurs(k, p)
    decreases |p|
  {
    if p == [] {
      assert p + d == d;
      NotOccursWithoutFirstChar(k, d);
    } else {
      assert (p + d)[1..] == p[1..] + d;
      OccursBeforeDigits(k, p[1..], d);
      if |p| < |k| <= |p + d| {
        assert (p + d)[..|k|][|p|] == d[0];
      }
    }
  }

  /** No flower substring occurs in "plant " followed by digits. */
  lemma PlaceholderHasNoKey(d: string)
    requires forall i | 0 <= i < |d| :: IsDigit(d[i])
    ensures forall j | 0 <= j < |Enhancements| :: !Occurs(Enhancements[j].0, "plant " + d)
  {
    forall j | 0 <= j < |Enhancements| ensures !Occurs(Enhancements[j].0, "plant " + d) {
      KeyNotInPlant(j);
      OccursBeforeDigits(Enhancements[j].0, "plant ", d);
    }
  }

  lemma KeyNotInPlant(j: nat)
    requires j < |Enhancements|
    ensures forall i | 0 <= i < |Enhancements[j].0| :: !IsDigit(Enhancements[j].0[i])
    ensures !Occurs(Enhancements[j].0, "plant ")
  {
    if j == 2 {
      SkipMismatch("tulip", "plant ", 0);
      SkipMismatch("tulip", "lant ", 0);
    } else if j == 5 {
      SkipMismatch("lily", "plant ", 0);
      SkipMismatch("lily", "lant ", 1);
      NotOccursWithoutFirstChar("lily", "ant ");
    } else if |Enhancements[j].0| <= 6 {
      NotOccursWithoutFirstChar(Enhancements[j].0, "plant ");
    }
  }

  /** A label of the form "plant <digits>" is displayed as "Plant <digits>". */
  lemma PlaceholderPrettyName(d: string)
    requires forall i | 0 <= i < |d| :: IsDigit(d[i])
    ensures PrettyName("plant " + d) == "Plant " + d
    ensures PrettyName("Plant " + d) == "Plant " + d
  {
    PlaceholderHasNoKey(d);
    assert Lower("plant " + d) == "plant " + d;
    assert Lower("Plant " + d) == "plant " + d;
    assert Capitalize("plant " + d) == "Plant " + d;
    assert Capitalize("Plant " + d) == "Plant " + d;
  }

  /** A label containing a substring of the table gets that substring's display name. */
  lemma PrettyNamePrimrose()
    ensures PrettyName("primrose") == "Rose"
  {
    assert Lower("primrose") == "primrose";
    assert Occurs("rose", "primrose");
  }

  /** Case is ignored when looking for the substring. */
  lemma PrettyNameIgnoresCase()
    ensures PrettyName("Common Sunflower") == "Sunflower"
  {
    assert Lower("Common Sunflower") == "common sunflower";
    OccursAt("sunflower", "common sunflower", 7);
  }

  /** Table order, not position in the label, decides between two substrings. */
  lemma PrettyNameTableOrder()
    ensures PrettyName("lily rose") == "Rose"
  {
    assert Lower("lily rose") == "lily rose";
    SkipMismatch("sunflower", "lily rose", 0);
    assert Occurs("rose", "lily rose");
  }
}

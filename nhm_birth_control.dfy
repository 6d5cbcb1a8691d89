/** The column normalizer of the NHM birth-control dataset: two constant tables
    from raw column headers to StatVar identifiers and to clean labels. */
module NhmBirthControl {
  import opened Wrappers

  // Raw headers that several yearly releases spell differently.
  const VasectomiesPublicPrivate: string := "Number of Vasectomies Conducted (Public + Pvt.)"
  const Vasectomies: string := "Number of Vasectomies Conducted"
  const TubectomiesPublicPrivate: string := "Number of Tubectomies Conducted (Public + Pvt.)"
  const Tubectomies: string := "Number of Tubectomies Conducted"
  const IucdPublicPrivate: string := "Total IUCD Insertions done(public+private)"
  const IucdInterval: string := "Total Interval IUCD Insertions done"
  const IucdShareInstitutions: string :=
    "% IUCD insertions in public plus private institutions to all family planning methods ( IUCD plus permanent)"
  const IucdShare: string := "% IUCD insertions to all family planning methods ( IUCD plus permanent)"
  const OralPills: string := "Oral Pills distributed"
  const CombinedOralPills: string := "Combined Oral Pills distributed"

  /** Raw column header -> StatVar identifier (several headers may share one). */
  const ColsToNodes: map<string, string> := map[
    "State" := "State",
    "isoCode" := "isoCode",
    "Date" := "Date",
    VasectomiesPublicPrivate := "Count_BirthControlEvent_Vasectomy",
    Vasectomies := "Count_BirthControlEvent_Vasectomy",
    TubectomiesPublicPrivate := "Count_BirthControlEvent_Tubectomy",
    Tubectomies := "Count_BirthControlEvent_Tubectomy",
    "Total Sterilisation Conducted" := "Count_BirthControlEvent_Sterilisation",
    "% Male Sterlisation (Vasectomies) to Total sterilisation" :=
      "Count_BirthControlEvent_Vasectomy_AsFractionOf_Count_BirthControlEvent_Sterlization",
    "Total cases of deaths following Sterlisation ( Male + Female)" := "Count_Death_BirthControlSterilisation",
    IucdPublicPrivate := "Count_BirthControlEvent_IUCDInsertion",
    IucdInterval := "Count_BirthControlEvent_IUCDInsertion",
    IucdShareInstitutions := "Count_BirthControlEvent_IUCDInsertion_AsFractionOf_Count_BirthControlEvent",
    IucdShare := "Count_BirthControlEvent_IUCDInsertion_AsFractionOf_Count_BirthControlEvent",
    OralPills := "Count_ContraceptiveDistribution_OralPill",
    CombinedOralPills := "Count_ContraceptiveDistribution_OralPill",
    "Condom pieces distributed" := "Count_ContraceptiveDistribution_Condom"
  ]

  /** Raw column header -> human-readable label. */
  const CleanNames: map<string, string> := map[
    "State" := "State",
    "isoCode" := "isoCode",
    "Date" := "Date",
    VasectomiesPublicPrivate := "Number of Vasectomies Conducted",
    Vasectomies := "Number of Vasectomies Conducted",
    TubectomiesPublicPrivate := "Number of Tubectomies Conducted",
    Tubectomies := "Number of Tubectomies Conducted",
    "Total Sterilisation Conducted" := "Total Sterilisation Conducted",
    "% Male Sterlisation (Vasectomies) to Total sterilisation" :=
      "Percent of Male Sterlisation (Vasectomies) to Total sterilisation",
    "Total cases of deaths following Sterlisation ( Male + Female)" :=
      "Total cases of deaths following Sterilisation (Male and Female)",
    IucdPublicPrivate := "Total IUCD Insertions done",
    IucdInterval := "Total IUCD Insertions done",
    IucdShareInstitutions := "Percent of IUCD insertions to all family planning methods",
    IucdShare := "Percent of IUCD insertions to all family planning methods",
    OralPills := "Number of distributed contraceptives (oral pills)",
    CombinedOralPills := "Number of distributed contraceptives (oral pills)",
    "Condom pieces distributed" := "Number of distributed contraceptives (condoms)"
  ]

  /** Exact-match lookup: the entry for `raw`, or None when the header is unmapped. */
  function Lookup(table: map<string, string>, raw: string): (r: Option<string>)
    ensures r.Some? <==> raw in table
    ensures r.Some? ==> r.value == table[raw] && r.value in table.Values
  {
    if raw in table then Some(table[raw]) else None
  }

  /** The StatVar identifier of a raw header: some identifier of the table exactly for its headers. */
  function StatVarOf(raw: string): (r: Option<string>)
    ensures r.Some? <==> raw in ColsToNodes
    ensures r.Some? ==> r.value in ColsToNodes.Values
  {
    Lookup(ColsToNodes, raw)
  }

  /** The clean label of a raw header: present exactly when the header has an
      identifier, and then the label of that identifier. */
  function CleanNameOf(raw: string): (r: Option<string>)
    ensures r.Some? <==> StatVarOf(raw).Some?
    ensures r.Some? ==> r.value == LabelOfStatVar(StatVarOf(raw).value)
  {
    SameRawHeaders();
    CleanNameFollowsStatVar();
    Lookup(CleanNames, raw)
  }

  /** Renaming a header row: unmapped headers are dropped, mapped ones replaced
      by their table entry, in their original order. */
  function Rename(table: map<string, string>, headers: seq<string>): (names: seq<string>)
    ensures |names| <= |headers|
  {
    if headers == [] then []
    else match Lookup(table, headers[0])
      case Some(n) => [n] + Rename(table, headers[1..])
      case None => Rename(table, headers[1..])
  }

  /** A name is in the renamed row exactly when some mapped header of the row maps to it. */
  lemma {:induction false} RenameMembers(table: map<string, string>, headers: seq<string>)
    ensures forall h :: h in headers && h in table ==> table[h] in Rename(table, headers)
    ensures forall n :: n in Rename(table, headers) ==> exists h :: h in headers && h in table && table[h] == n
    ensures forall n :: n in Rename(table, headers) ==> n in table.Values
  {
    if headers != [] {
      RenameMembers(table, headers[1..]);
      forall h | h in headers && h in table
        ensures table[h] in Rename(table, headers)
      {
        if h != headers[0] {
          assert h in headers[1..];
        }
      }
      forall n | n in Rename(table, headers)
        ensures exists h :: h in headers && h in table && table[h] == n
      {
        if n in Rename(table, headers[1..]) {
          var h :| h in headers[1..] && h in table && table[h] == n;
          assert h in headers;
        } else {
          assert headers[0] in headers;
        }
      }
    }
  }

  /** Nothing is dropped exactly when every header is mapped; everything is dropped exactly when none is. */
  lemma {:induction false} RenameLength(table: map<string, string>, headers: seq<string>)
    ensures |Rename(table, headers)| == |headers| <==> forall h :: h in headers ==> h in table
    ensures Rename(table, headers) == [] <==> forall h :: h in headers ==> h !in table
  {
    if headers != [] {
      RenameLength(table, headers[1..]);
      assert forall h :: h in headers <==> h == headers[0] || h in headers[1..];
    }
  }

  // ---------------------------------------------------------------------------
  // Properties of the two tables
  // ---------------------------------------------------------------------------

  /** Both tables describe exactly the same raw headers. */
  lemma SameRawHeaders()
    ensures ColsToNodes.Keys == CleanNames.Keys
  {
  }

  /** The label of each StatVar, as the clean-name table gives it for every header of that StatVar. */
  function LabelOfStatVar(id: string): string {
    match id
    case "Count_BirthControlEvent_Vasectomy" => "Number of Vasectomies Conducted"
    case "Count_BirthControlEvent_Tubectomy" => "Number of Tubectomies Conducted"
    case "Count_BirthControlEvent_Sterilisation" => "Total Sterilisation Conducted"
    case "Count_BirthControlEvent_Vasectomy_AsFractionOf_Count_BirthControlEvent_Sterlization" =>
      "Percent of Male Sterlisation (Vasectomies) to Total sterilisation"
    case "Count_Death_BirthControlSterilisation" => "Total cases of deaths following Sterilisation (Male and Female)"
    case "Count_BirthControlEvent_IUCDInsertion" => "Total IUCD Insertions done"
    case "Count_BirthControlEvent_IUCDInsertion_AsFractionOf_Count_BirthControlEvent" =>
      "Percent of IUCD insertions to all family planning methods"
    case "Count_ContraceptiveDistribution_OralPill" => "Number of distributed contraceptives (oral pills)"
    case "Count_ContraceptiveDistribution_Condom" => "Number of distributed contraceptives (condoms)"
    case _ => id
  }

  /** A header's clean label depends only on its StatVar identifier. */
  lemma CleanNameFollowsStatVar()
    ensures forall raw :: raw in ColsToNodes ==> raw in CleanNames && CleanNames[raw] == LabelOfStatVar(ColsToNodes[raw])
  {
  }

  /** Headers that share a StatVar identifier share their clean label. */
  lemma SynonymsShareLabel(a: string, b: string)
    requires a in ColsToNodes && b in ColsToNodes && ColsToNodes[a] == ColsToNodes[b]
    ensures a in CleanNames && b in CleanNames && CleanNames[a] == CleanNames[b]
  {
    CleanNameFollowsStatVar();
  }

  /** The identifier columns map to themselves in both tables. */
  lemma IdentityColumns()
    ensures forall raw :: raw in {"State", "isoCode", "Date"} ==>
      StatVarOf(raw) == Some(raw) && CleanNameOf(raw) == Some(raw)
  {
  }

  /** Both IUCD insertion spellings collapse to one StatVar and one label. */
  lemma IucdSynonyms()
    ensures StatVarOf(IucdPublicPrivate) == StatVarOf(IucdInterval) == Some("Count_BirthControlEvent_IUCDInsertion")
    ensures CleanNameOf(IucdPublicPrivate) == CleanNameOf(IucdInterval) == Some("Total IUCD Insertions done")
  {
  }

  /** Oral pills, with or without "Combined", are one StatVar with one label. */
  lemma OralPillSynonyms()
    ensures StatVarOf(OralPills) == StatVarOf(CombinedOralPills) == Some("Count_ContraceptiveDistribution_OralPill")
    ensures CleanNameOf(OralPills) == CleanNameOf(CombinedOralPills)
      == Some("Number of distributed contraceptives (oral pills)")
  {
  }

  /** Vasectomy and tubectomy counts, with or without "(Public + Pvt.)", are one StatVar each. */
  lemma SterilisationSynonyms()
    ensures StatVarOf(VasectomiesPublicPrivate) == StatVarOf(Vasectomies) == Some("Count_BirthControlEvent_Vasectomy")
    ensures StatVarOf(TubectomiesPublicPrivate) == StatVarOf(Tubectomies) == Some("Count_BirthControlEvent_Tubectomy")
    ensures StatVarOf(Vasectomies) != StatVarOf(Tubectomies)
  {
  }

  /** The raw headers the table knows. */
  const RawHeaders: set<string> := {
    "State", "isoCode", "Date", VasectomiesPublicPrivate, Vasectomies, TubectomiesPublicPrivate, Tubectomies,
    "Total Sterilisation Conducted", "% Male Sterlisation (Vasectomies) to Total sterilisation",
    "Total cases of deaths following Sterlisation ( Male + Female)", IucdPublicPrivate, IucdInterval,
    IucdShareInstitutions, IucdShare, OralPills, CombinedOralPills, "Condom pieces distributed" }

  /** There are 17 distinct raw headers. */
  lemma RawHeadersSize()
    ensures |RawHeaders| == 17
  {
    var first := {"State", "isoCode", "Date", VasectomiesPublicPrivate, Vasectomies, TubectomiesPublicPrivate,
                  Tubectomies, "Total Sterilisation Conducted"};
    var second := {"% Male Sterlisation (Vasectomies) to Total sterilisation",
                   "Total cases of deaths following Sterlisation ( Male + Female)", IucdPublicPrivate, IucdInterval,
                   IucdShareInstitutions, IucdShare, OralPills, CombinedOralPills, "Condom pieces distributed"};
    assert |first| == 8 && |second| == 9 && first !! second;
    assert RawHeaders == first + second;
  }

  /** The table has 17 distinct raw headers. */
  lemma RawHeaderCount()
    ensures ColsToNodes.Keys == RawHeaders
    ensures |ColsToNodes.Keys| == 17
  {
    RawHeadersSize();
  }

  /** The StatVar identifiers the table produces. */
  const StatVars: set<string> := {
    "State", "isoCode", "Date",
    "Count_BirthControlEvent_Vasectomy", "Count_BirthControlEvent_Tubectomy",
    "Count_BirthControlEvent_Sterilisation",
    "Count_BirthControlEvent_Vasectomy_AsFractionOf_Count_BirthControlEvent_Sterlization",
    "Count_Death_BirthControlSterilisation", "Count_BirthControlEvent_IUCDInsertion",
    "Count_BirthControlEvent_IUCDInsertion_AsFractionOf_Count_BirthControlEvent",
    "Count_ContraceptiveDistribution_OralPill", "Count_ContraceptiveDistribution_Condom" }

  /** Every StatVar is the identifier of some raw header. */
  lemma EveryStatVarUsed()
    ensures StatVars <= ColsToNodes.Values
  {
    assert ColsToNodes["State"] == "State" by {}
    assert ColsToNodes["isoCode"] == "isoCode" by {}
    assert ColsToNodes["Date"] == "Date" by {}
    assert ColsToNodes[Vasectomies] == "Count_BirthControlEvent_Vasectomy" by {}
    assert ColsToNodes[Tubectomies] == "Count_BirthControlEvent_Tubectomy" by {}
    assert ColsToNodes["Total Sterilisation Conducted"] == "Count_BirthControlEvent_Sterilisation" by {}
    assert ColsToNodes["% Male Sterlisation (Vasectomies) to Total sterilisation"] ==
      "Count_BirthControlEvent_Vasectomy_AsFractionOf_Count_BirthControlEvent_Sterlization" by {}
    assert ColsToNodes["Total cases of deaths following Sterlisation ( Male + Female)"] ==
      "Count_Death_BirthControlSterilisation" by {}
    assert ColsToNodes[IucdInterval] == "Count_BirthControlEvent_IUCDInsertion" by {}
    assert ColsToNodes[IucdShare] == "Count_BirthControlEvent_IUCDInsertion_AsFractionOf_Count_BirthControlEvent" by {}
    assert ColsToNodes[OralPills] == "Count_ContraceptiveDistribution_OralPill" by {}
    assert ColsToNodes["Condom pieces distributed"] == "Count_ContraceptiveDistribution_Condom" by {}
  }

  /** Every raw header's identifier is one of the StatVars. */
  lemma OnlyStatVars()
    ensures ColsToNodes.Values <= StatVars
  {
  }

  /** There are 12 StatVars. */
  lemma StatVarsSize()
    ensures |StatVars| == 12
  {
    var first := {"State", "isoCode", "Date", "Count_BirthControlEvent_Vasectomy", "Count_BirthControlEvent_Tubectomy",
                  "Count_BirthControlEvent_Sterilisation"};
    var second := {"Count_BirthControlEvent_Vasectomy_AsFractionOf_Count_BirthControlEvent_Sterlization",
                   "Count_Death_BirthControlSterilisation", "Count_BirthControlEvent_IUCDInsertion",
                   "Count_BirthControlEvent_IUCDInsertion_AsFractionOf_Count_BirthControlEvent",
                   "Count_ContraceptiveDistribution_OralPill", "Count_ContraceptiveDistribution_Condom"};
    assert |first| == 6 && |second| == 6 && first !! second;
    assert StatVars == first + second;
  }

  /** The table's identifiers are exactly the StatVars. */
  lemma TableStatVars()
    ensures ColsToNodes.Values == StatVars
  {
    EveryStatVarUsed();
    OnlyStatVars();
  }

  /** The table's headers name 12 distinct identifiers. */
  lemma StatVarCount()
    ensures |ColsToNodes.Values| == 12
  {
    StatVarsSize();
    TableStatVars();
  }

  /** The mapping is many-to-one: fewer StatVars than raw headers, and two distinct headers share one. */
  lemma ManyToOne()
    ensures |ColsToNodes.Values| < |ColsToNodes.Keys|
    ensures exists a, b :: a in ColsToNodes && b in ColsToNodes && a != b && ColsToNodes[a] == ColsToNodes[b]
  {
    RawHeaderCount();
    StatVarCount();
    assert OralPills in ColsToNodes && CombinedOralPills in ColsToNodes && OralPills != CombinedOralPills;
    assert ColsToNodes[OralPills] == ColsToNodes[CombinedOralPills];
  }

  /** Renaming distributes over the concatenation of header rows, e.g. a header row split in two. */
  lemma {:induction false} RenameAppend(table: map<string, string>, a: seq<string>, b: seq<string>)
    ensures Rename(table, a + b) == Rename(table, a) + Rename(table, b)
  {
    if a == [] {
      assert a + b == b;
    } else {
      assert (a + b)[0] == a[0] && (a + b)[1..] == a[1..] + b;
      RenameAppend(table, a[1..], b);
      if a[0] in table {
        assert Rename(table, a + b) == [table[a[0]]] + Rename(table, a[1..] + b);
        assert Rename(table, a) == [table[a[0]]] + Rename(table, a[1..]);
      } else {
        assert Rename(table, a + b) == Rename(table, a[1..] + b);
        assert Rename(table, a) == Rename(table, a[1..]);
      }
    }
  }

  /** Renaming a one-header row. */
  lemma RenameOne(table: map<string, string>, h: string)
    ensures Rename(table, [h]) == if h in table then [table[h]] else []
  {
    assert [h][1..] == [];
  }

  /** Renaming a header row keeps the mapped headers' identifiers, in order, and drops an unknown header. */
  lemma RenameScenario()
    ensures Rename(ColsToNodes, ["State", "Unknown column", OralPills, CombinedOralPills])
      == ["State", "Count_ContraceptiveDistribution_OralPill", "Count_ContraceptiveDistribution_OralPill"]
  {
    var pill := "Count_ContraceptiveDistribution_OralPill";
    assert ColsToNodes["State"] == "State" && "Unknown column" !in ColsToNodes;
    assert ColsToNodes[OralPills] == pill && ColsToNodes[CombinedOralPills] == pill;
    RenameOne(ColsToNodes, "State");
    RenameOne(ColsToNodes, "Unknown column");
    RenameOne(ColsToNodes, OralPills);
    RenameOne(ColsToNodes, CombinedOralPills);
    RenameAppend(ColsToNodes, ["State"], ["Unknown column"]);
    RenameAppend(ColsToNodes, ["State", "Unknown column"], [OralPills]);
    RenameAppend(ColsToNodes, ["State", "Unknown column", OralPills], [CombinedOralPills]);
    assert ["State"] + ["Unknown column"] == ["State", "Unknown column"];
    assert ["State", "Unknown column"] + [OralPills] == ["State", "Unknown column", OralPills];
    assert ["State", "Unknown column", OralPills] + [CombinedOralPills]
      == ["State", "Unknown column", OralPills, CombinedOralPills];
  }
}

/**
 * The fixed set of named simulation variables, where each of them lives in
 * the two input files, and the four transport-model modes that pre-fix some
 * of them to constants.
 */
module Variables {
  import opened Collections

  /** The 29 simulation variables; `Name` gives the dictionary key of each. */
  datatype Key =
    | Nz
    | Nm
    | Length
    | BulkDensity
    | RunTime
    | PulseTime
    | DeltaT
    | DeltaX
    | PorosityMacro
    | PorosityMeso
    | PorosityMicro
    | InstantMacro
    | InstantMeso
    | InstantMicro
    | FractionMacro
    | FractionMeso
    | FractionImmobile
    | EquilibriumMacro
    | EquilibriumMeso
    | EquilibriumMicro
    | RateMacro
    | RateMeso
    | RateMicro
    | MesoVelocity
    | MacroVelocity
    | TransferMicro
    | TransferMacro
    | Dispersivity
    | ObservationCount

  /** The key under which the variable dictionary stores a variable. */
  function Name(k: Key): string {
    match k
    case Nz => "nz"
    case Nm => "nm"
    case Length => "Length"
    case BulkDensity => "Bulk density of porous media"
    case RunTime => "Run time"
    case PulseTime => "Pulse time"
    case DeltaT => "delta_t"
    case DeltaX => "delta_x"
    case PorosityMacro => "Porosity of the macropore region"
    case PorosityMeso => "Porosity of the mesopore region"
    case PorosityMicro => "Porosity of the micropore region"
    case InstantMacro => "Instantaneous sorption fraction in macropore region"
    case InstantMeso => "Instantaneous sorption fraction in mesopore region"
    case InstantMicro => "Instantaneous sorption fraction in micropore region"
    case FractionMacro => "Fraction of sorption site available for macropore region"
    case FractionMeso => "Fraction of sorption site available for mesopore region"
    case FractionImmobile => "Fraction of sorption site available for immobile region"
    case EquilibriumMacro => "Equilibrium sorption coefficient in macropore region"
    case EquilibriumMeso => "Equilibrium sorption coefficient in mesopore region"
    case EquilibriumMicro => "Equilibrium sorption coefficient in micropore region"
    case RateMacro => "Rate-limited sorbed coefficient in macropore region"
    case RateMeso => "Rate-limited sorbed coefficient in mesopore region"
    case RateMicro => "Rate-limited sorbed coefficient in micropore region"
    case MesoVelocity => "Mesopore seepage velocity"
    case MacroVelocity => "Macropore seepage velocity"
    case TransferMicro => "Solute mass transfer rate b/w meso-micropore"
    case TransferMacro => "Solute mass transfer rate b/w meso-macropore"
    case Dispersivity => "Dispersivity"
    case ObservationCount => "No. of observation time steps"
  }

  /** The keys of the variable dictionary, in its insertion order. */
  const AllKeys: seq<Key> := [
    Nz,
    Nm,
    Length,
    BulkDensity,
    RunTime,
    PulseTime,
    DeltaT,
    DeltaX,
    PorosityMacro,
    PorosityMeso,
    PorosityMicro,
    InstantMacro,
    InstantMeso,
    InstantMicro,
    FractionMacro,
    FractionMeso,
    FractionImmobile,
    EquilibriumMacro,
    EquilibriumMeso,
    EquilibriumMicro,
    RateMacro,
    RateMeso,
    RateMicro,
    MesoVelocity,
    MacroVelocity,
    TransferMicro,
    TransferMacro,
    Dispersivity,
    ObservationCount
  ]

  /** The position of each variable in `AllKeys`. */
  function Index(k: Key): nat {
    match k
    case Nz => 0
    case Nm => 1
    case Length => 2
    case BulkDensity => 3
    case RunTime => 4
    case PulseTime => 5
    case DeltaT => 6
    case DeltaX => 7
    case PorosityMacro => 8
    case PorosityMeso => 9
    case PorosityMicro => 10
    case InstantMacro => 11
    case InstantMeso => 12
    case InstantMicro => 13
    case FractionMacro => 14
    case FractionMeso => 15
    case FractionImmobile => 16
    case EquilibriumMacro => 17
    case EquilibriumMeso => 18
    case EquilibriumMicro => 19
    case RateMacro => 20
    case RateMeso => 21
    case RateMicro => 22
    case MesoVelocity => 23
    case MacroVelocity => 24
    case TransferMicro => 25
    case TransferMacro => 26
    case Dispersivity => 27
    case ObservationCount => 28
  }

  /** The variables held one per line at the head of File A, in line order. */
  const FileAKeys: seq<Key> := [MesoVelocity, MacroVelocity, TransferMicro, TransferMacro, Dispersivity, ObservationCount]

  /** The variables of File C, row by row, each row in column order. */
  const FileCKeys: seq<seq<Key>> := [
    [Nz, Nm],
    [Length, BulkDensity, RunTime, PulseTime, DeltaT, DeltaX],
    [PorosityMacro, PorosityMeso, PorosityMicro],
    [InstantMacro, InstantMeso, InstantMicro, FractionMacro, FractionMeso, FractionImmobile],
    [EquilibriumMacro, EquilibriumMeso, EquilibriumMicro, RateMacro, RateMeso, RateMicro]
  ]

  /** `Index` numbers the variables in dictionary order. */
  lemma IndexOfAllKeys()
    ensures |AllKeys| == 29
    ensures forall i :: 0 <= i < |AllKeys| ==> Index(AllKeys[i]) == i
    ensures forall k: Key :: Index(k) < |AllKeys| && AllKeys[Index(k)] == k
  {
    AllKeysListed();
    forall i | 0 <= i < |AllKeys| ensures Index(AllKeys[i]) == i {
      AllKeysIndexed(i);
    }
  }

  /** Position by position, the dictionary order. */
  lemma AllKeysListed()
    ensures |AllKeys| == 29
    ensures forall k: Key :: Index(k) < |AllKeys| && AllKeys[Index(k)] == k
  {
    forall k: Key ensures Index(k) < |AllKeys| && AllKeys[Index(k)] == k {
      var i := Index(k);
      if i < 5 {
        KeysFrom0();
      } else if i < 10 {
        KeysFrom5();
      } else if i < 15 {
        KeysFrom10();
      } else if i < 20 {
        KeysFrom15();
      } else if i < 25 {
        KeysFrom20();
      } else {
        KeysFrom25();
      }
    }
  }

  lemma AllKeysIndexed(i: nat)
    requires i < |AllKeys|
    ensures Index(AllKeys[i]) == i
  {
    if i < 5 {
      IndexedFrom0(i);
    } else if i < 10 {
      IndexedFrom5(i);
    } else if i < 15 {
      IndexedFrom10(i);
    } else if i < 20 {
      IndexedFrom15(i);
    } else if i < 25 {
      IndexedFrom20(i);
    } else {
      IndexedFrom25(i);
    }
  }

  lemma IndexedFrom0(i: nat)
    requires 0 <= i < 5
    ensures |AllKeys| == 29 && Index(AllKeys[i]) == i
  {
    KeysFrom0();
  }

  lemma IndexedFrom5(i: nat)
    requires 5 <= i < 10
    ensures |AllKeys| == 29 && Index(AllKeys[i]) == i
  {
    KeysFrom5();
  }

  lemma IndexedFrom10(i: nat)
    requires 10 <= i < 15
    ensures |AllKeys| == 29 && Index(AllKeys[i]) == i
  {
    KeysFrom10();
  }

  lemma IndexedFrom15(i: nat)
    requires 15 <= i < 20
    ensures |AllKeys| == 29 && Index(AllKeys[i]) == i
  {
    KeysFrom15();
  }

  lemma IndexedFrom20(i: nat)
    requires 20 <= i < 25
    ensures |AllKeys| == 29 && Index(AllKeys[i]) == i
  {
    KeysFrom20();
  }

  lemma IndexedFrom25(i: nat)
    requires 25 <= i < 29
    ensures |AllKeys| == 29 && Index(AllKeys[i]) == i
  {
    KeysFrom25();
  }

  lemma KeysFrom0()
    ensures |AllKeys| == 29 && AllKeys[0] == Nz && AllKeys[1] == Nm && AllKeys[2] == Length && AllKeys[3] == BulkDensity && AllKeys[4] == RunTime
  {
    assert AllKeys[0] == Nz;
    assert AllKeys[1] == Nm;
    assert AllKeys[2] == Length;
    assert AllKeys[3] == BulkDensity;
    assert AllKeys[4] == RunTime;
  }

  lemma KeysFrom5()
    ensures |AllKeys| == 29 && AllKeys[5] == PulseTime && AllKeys[6] == DeltaT && AllKeys[7] == DeltaX && AllKeys[8] == PorosityMacro && AllKeys[9] == PorosityMeso
  {
    assert AllKeys[5] == PulseTime;
    assert AllKeys[6] == DeltaT;
    assert AllKeys[7] == DeltaX;
    assert AllKeys[8] == PorosityMacro;
    assert AllKeys[9] == PorosityMeso;
  }

  lemma KeysFrom10()
    ensures |AllKeys| == 29 && AllKeys[10] == PorosityMicro && AllKeys[11] == InstantMacro && AllKeys[12] == InstantMeso && AllKeys[13] == InstantMicro && AllKeys[14] == FractionMacro
  {
    assert AllKeys[10] == PorosityMicro;
    assert AllKeys[11] == InstantMacro;
    assert AllKeys[12] == InstantMeso;
    assert AllKeys[13] == InstantMicro;
    assert AllKeys[14] == FractionMacro;
  }

  lemma KeysFrom15()
    ensures |AllKeys| == 29 && AllKeys[15] == FractionMeso && AllKeys[16] == FractionImmobile && AllKeys[17] == EquilibriumMacro && AllKeys[18] == EquilibriumMeso && AllKeys[19] == EquilibriumMicro
  {
    assert AllKeys[15] == FractionMeso;
    assert AllKeys[16] == FractionImmobile;
    assert AllKeys[17] == EquilibriumMacro;
    assert AllKeys[18] == EquilibriumMeso;
    assert AllKeys[19] == EquilibriumMicro;
  }

  lemma KeysFrom20()
    ensures |AllKeys| == 29 && AllKeys[20] == RateMacro && AllKeys[21] == RateMeso && AllKeys[22] == RateMicro && AllKeys[23] == MesoVelocity && AllKeys[24] == MacroVelocity
  {
    assert AllKeys[20] == RateMacro;
    assert AllKeys[21] == RateMeso;
    assert AllKeys[22] == RateMicro;
    assert AllKeys[23] == MesoVelocity;
    assert AllKeys[24] == MacroVelocity;
  }

  lemma KeysFrom25()
    ensures |AllKeys| == 29 && AllKeys[25] == TransferMicro && AllKeys[26] == TransferMacro && AllKeys[27] == Dispersivity && AllKeys[28] == ObservationCount
  {
    assert AllKeys[25] == TransferMicro;
    assert AllKeys[26] == TransferMacro;
    assert AllKeys[27] == Dispersivity;
    assert AllKeys[28] == ObservationCount;
  }

  /** The dictionary lists each of the 29 variables exactly once. */
  lemma AllKeysDistinct()
    ensures Distinct(AllKeys) && forall k: Key :: k in AllKeys
  {
    IndexOfAllKeys();
    forall k: Key ensures k in AllKeys {
      assert AllKeys[Index(k)] == k;
    }
  }

  /** Where a variable is stored: a line of File A, or a row and column of File C. */
  datatype Place = LineOfA(line: nat) | FieldOfC(row: nat, column: nat)

  /** The place of each variable in the two input files. */
  function PlaceOf(k: Key): Place {
    match k
    case Nz => FieldOfC(0, 0)
    case Nm => FieldOfC(0, 1)
    case Length => FieldOfC(1, 0)
    case BulkDensity => FieldOfC(1, 1)
    case RunTime => FieldOfC(1, 2)
    case PulseTime => FieldOfC(1, 3)
    case DeltaT => FieldOfC(1, 4)
    case DeltaX => FieldOfC(1, 5)
    case PorosityMacro => FieldOfC(2, 0)
    case PorosityMeso => FieldOfC(2, 1)
    case PorosityMicro => FieldOfC(2, 2)
    case InstantMacro => FieldOfC(3, 0)
    case InstantMeso => FieldOfC(3, 1)
    case InstantMicro => FieldOfC(3, 2)
    case FractionMacro => FieldOfC(3, 3)
    case FractionMeso => FieldOfC(3, 4)
    case FractionImmobile => FieldOfC(3, 5)
    case EquilibriumMacro => FieldOfC(4, 0)
    case EquilibriumMeso => FieldOfC(4, 1)
    case EquilibriumMicro => FieldOfC(4, 2)
    case RateMacro => FieldOfC(4, 3)
    case RateMeso => FieldOfC(4, 4)
    case RateMicro => FieldOfC(4, 5)
    case MesoVelocity => LineOfA(0)
    case MacroVelocity => LineOfA(1)
    case TransferMicro => LineOfA(2)
    case TransferMacro => LineOfA(3)
    case Dispersivity => LineOfA(4)
    case ObservationCount => LineOfA(5)
  }

  /** A place the two files actually have: six lines of File A, five rows of File C. */
  predicate IsPlace(p: Place) {
    match p
    case LineOfA(i) => i < |FileAKeys|
    case FieldOfC(r, j) => r < |FileCKeys| && j < |FileCKeys[r]|
  }

  /** The variable the file layout puts at a place. */
  function KeyAt(p: Place): Key
    requires IsPlace(p)
  {
    match p
    case LineOfA(i) => FileAKeys[i]
    case FieldOfC(r, j) => FileCKeys[r][j]
  }

  /** Each variable's place holds that variable. */
  lemma KeyAtPlaceOf(k: Key)
    ensures IsPlace(PlaceOf(k)) && KeyAt(PlaceOf(k)) == k
  {
    PlaceOfKeyAt(PlaceOf(k));
  }

  /** Each place of the layout is the place of the variable it holds. */
  lemma PlaceOfKeyAt(p: Place)
    ensures IsPlace(p) ==> PlaceOf(KeyAt(p)) == p
  {
    if IsPlace(p) {
      match p
      case LineOfA(i) => PlaceOfLine(i);
      case FieldOfC(r, j) =>
        if r < 3 { PlaceOfFirstRows(r, j); } else { PlaceOfLastRows(r, j); }
    }
  }

  lemma PlaceOfLine(i: nat)
    requires i < |FileAKeys|
    ensures PlaceOf(FileAKeys[i]) == LineOfA(i)
  {
    if i == 0 { assert FileAKeys[0] == MesoVelocity; }
    else if i == 1 { assert FileAKeys[1] == MacroVelocity; }
    else if i == 2 { assert FileAKeys[2] == TransferMicro; }
    else if i == 3 { assert FileAKeys[3] == TransferMacro; }
    else if i == 4 { assert FileAKeys[4] == Dispersivity; }
    else { assert FileAKeys[5] == ObservationCount; }
  }

  lemma PlaceOfFirstRows(r: nat, j: nat)
    requires r < 3 && j < |FileCKeys[r]|
    ensures PlaceOf(FileCKeys[r][j]) == FieldOfC(r, j)
  {
    if r == 0 && j == 0 { assert FileCKeys[0][0] == Nz; }
    else if r == 0 && j == 1 { assert FileCKeys[0][1] == Nm; }
    else if r == 1 && j == 0 { assert FileCKeys[1][0] == Length; }
    else if r == 1 && j == 1 { assert FileCKeys[1][1] == BulkDensity; }
    else if r == 1 && j == 2 { assert FileCKeys[1][2] == RunTime; }
    else if r == 1 && j == 3 { assert FileCKeys[1][3] == PulseTime; }
    else if r == 1 && j == 4 { assert FileCKeys[1][4] == DeltaT; }
    else if r == 1 && j == 5 { assert FileCKeys[1][5] == DeltaX; }
    else if r == 2 && j == 0 { assert FileCKeys[2][0] == PorosityMacro; }
    else if r == 2 && j == 1 { assert FileCKeys[2][1] == PorosityMeso; }
    else { assert FileCKeys[2][2] == PorosityMicro; }
  }

  lemma PlaceOfLastRows(r: nat, j: nat)
    requires 3 <= r < |FileCKeys| && j < |FileCKeys[r]|
    ensures PlaceOf(FileCKeys[r][j]) == FieldOfC(r, j)
  {
    if r == 3 && j == 0 { assert FileCKeys[3][0] == InstantMacro; }
    else if r == 3 && j == 1 { assert FileCKeys[3][1] == InstantMeso; }
    else if r == 3 && j == 2 { assert FileCKeys[3][2] == InstantMicro; }
    else if r == 3 && j == 3 { assert FileCKeys[3][3] == FractionMacro; }
    else if r == 3 && j == 4 { assert FileCKeys[3][4] == FractionMeso; }
    else if r == 3 && j == 5 { assert FileCKeys[3][5] == FractionImmobile; }
    else if r == 4 && j == 0 { assert FileCKeys[4][0] == EquilibriumMacro; }
    else if r == 4 && j == 1 { assert FileCKeys[4][1] == EquilibriumMeso; }
    else if r == 4 && j == 2 { assert FileCKeys[4][2] == EquilibriumMicro; }
    else if r == 4 && j == 3 { assert FileCKeys[4][3] == RateMacro; }
    else if r == 4 && j == 4 { assert FileCKeys[4][4] == RateMeso; }
    else { assert FileCKeys[4][5] == RateMicro; }
  }

  /**
   * The file layout and `PlaceOf` agree, so between them the two files hold
   * every variable exactly once: each key has one place, and each place of
   * the six lines of File A and the 2 + 6 + 3 + 6 + 6 fields of File C holds
   * one key.
   */
  lemma PlacesAgree()
    ensures forall k: Key :: IsPlace(PlaceOf(k)) && KeyAt(PlaceOf(k)) == k
    ensures forall p :: IsPlace(p) ==> PlaceOf(KeyAt(p)) == p
    ensures |FileAKeys| == 6 && |FileCKeys| == 5 && |FileCKeys[0]| == 2 && |FileCKeys[1]| == 6
    ensures |FileCKeys[2]| == 3 && |FileCKeys[3]| == 6 && |FileCKeys[4]| == 6
  {
    forall k: Key ensures IsPlace(PlaceOf(k)) && KeyAt(PlaceOf(k)) == k {
      KeyAtPlaceOf(k);
    }
    forall p ensures IsPlace(p) ==> PlaceOf(KeyAt(p)) == p {
      PlaceOfKeyAt(p);
    }
  }

  // ------------------------------------------------------------- the modes

  /** A mode either leaves a variable to the user (`Free`, Python's None) or fixes it to a constant. */
  datatype Preset = Free | Fixed(value: string)

  datatype Mode = Mode(name: string, presets: map<Key, Preset>)

  const Tiny := Fixed("1e-16")
  const One := Fixed("1")

  /** The table of the four modes: ADE, MIM, MPNE and DADE, each a list of map from variable to preset. */
  function Modes(): seq<Mode> {
    [
      Mode("ADE", map[
        Nz := Free,
        Nm := Free,
        Length := Free,
        BulkDensity := Free,
        RunTime := Free,
        PulseTime := Free,
        DeltaT := Free,
        DeltaX := Free,
        PorosityMacro := Free,
        PorosityMeso := Tiny,
        PorosityMicro := Tiny,
        InstantMacro := One,
        InstantMeso := Tiny,
        InstantMicro := Tiny,
        FractionMacro := One,
        FractionMeso := Tiny,
        FractionImmobile := Tiny,
        EquilibriumMacro := Free,
        EquilibriumMeso := Tiny,
        EquilibriumMicro := Tiny,
        RateMacro := Tiny,
        RateMeso := Tiny,
        RateMicro := Tiny,
        MesoVelocity := Tiny,
        MacroVelocity := Free,
        TransferMicro := Tiny,
        TransferMacro := Tiny,
        Dispersivity := Free,
        ObservationCount := Free
      ]),
      Mode("MIM", map[
        Nz := Free,
        Nm := Free,
        Length := Free,
        BulkDensity := Free,
        RunTime := Free,
        PulseTime := Free,
        DeltaT := Free,
        DeltaX := Free,
        PorosityMacro := Free,
        PorosityMeso := Tiny,
        PorosityMicro := Tiny,
        InstantMacro := Free,
        InstantMeso := Free,
        InstantMicro := Tiny,
        FractionMacro := Free,
        FractionMeso := Free,
        FractionImmobile := Tiny,
        EquilibriumMacro := Free,
        EquilibriumMeso := Free,
        EquilibriumMicro := Free,
        RateMacro := Tiny,
        RateMeso := Tiny,
        RateMicro := Tiny,
        MesoVelocity := Tiny,
        MacroVelocity := Free,
        TransferMicro := Tiny,
        TransferMacro := Free,
        Dispersivity := Free,
        ObservationCount := Free
      ]),
      Mode("MPNE", map[
        Nz := Free,
        Nm := Free,
        Length := Free,
        BulkDensity := Free,
        RunTime := Free,
        PulseTime := Free,
        DeltaT := Free,
        DeltaX := Free,
        PorosityMacro := Free,
        PorosityMeso := Free,
        PorosityMicro := Tiny,
        InstantMacro := Free,
        InstantMeso := Free,
        InstantMicro := Tiny,
        FractionMacro := Free,
        FractionMeso := Free,
        FractionImmobile := Tiny,
        EquilibriumMacro := Free,
        EquilibriumMeso := Free,
        EquilibriumMicro := Tiny,
        RateMacro := Free,
        RateMeso := Free,
        RateMicro := Free,
        MesoVelocity := Free,
        MacroVelocity := Free,
        TransferMicro := Tiny,
        TransferMacro := Free,
        Dispersivity := Free,
        ObservationCount := Free
      ]),
      Mode("DADE", map[
        Nz := Free,
        Nm := Free,
        Length := Free,
        BulkDensity := Free,
        RunTime := Free,
        PulseTime := Free,
        DeltaT := Free,
        DeltaX := Free,
        PorosityMacro := Free,
        PorosityMeso := Free,
        PorosityMicro := Tiny,
        InstantMacro := Tiny,
        InstantMeso := Tiny,
        InstantMicro := Tiny,
        FractionMacro := Tiny,
        FractionMeso := Tiny,
        FractionImmobile := Tiny,
        EquilibriumMacro := Tiny,
        EquilibriumMeso := Tiny,
        EquilibriumMicro := Tiny,
        RateMacro := Tiny,
        RateMeso := Tiny,
        RateMicro := Tiny,
        MesoVelocity := Free,
        MacroVelocity := Free,
        TransferMicro := Tiny,
        TransferMacro := Free,
        Dispersivity := Free,
        ObservationCount := Free
      ])
    ]
  }

  /** A mode gives a preset for every variable of the dictionary. */
  predicate Complete(p: map<Key, Preset>) {
    forall k: Key :: k in p
  }

  /** Each of the four modes gives a preset for every variable of the dictionary. */
  lemma ModeNamesEveryVariable(j: int)
    requires 0 <= j < |Modes()|
    ensures Complete(Modes()[j].presets)
  {
    forall k: Key ensures k in Modes()[j].presets {
      PresetIn(j, k);
    }
  }

  /** Mode `j` gives variable `k` a preset. */
  lemma PresetIn(j: nat, k: Key)
    requires j < |Modes()|
    ensures k in Modes()[j].presets
  {
    if j == 0 { PresetIn0(k); }
    else if j == 1 { PresetIn1(k); }
    else if j == 2 { PresetIn2(k); }
    else { PresetIn3(k); }
  }

  lemma PresetIn0(k: Key)
    ensures k in Modes()[0].presets
  {
    match k {
      case Nz =>
      case Nm =>
      case Length =>
      case BulkDensity =>
      case RunTime =>
      case PulseTime =>
      case DeltaT =>
      case DeltaX =>
      case PorosityMacro =>
      case PorosityMeso =>
      case PorosityMicro =>
      case InstantMacro =>
      case InstantMeso =>
      case InstantMicro =>
      case FractionMacro =>
      case FractionMeso =>
      case FractionImmobile =>
      case EquilibriumMacro =>
      case EquilibriumMeso =>
      case EquilibriumMicro =>
      case RateMacro =>
      case RateMeso =>
      case RateMicro =>
      case MesoVelocity =>
      case MacroVelocity =>
      case TransferMicro =>
      case TransferMacro =>
      case Dispersivity =>
      case ObservationCount =>
    }
  }

  lemma PresetIn1(k: Key)
    ensures k in Modes()[1].presets
  {
    match k {
      case Nz =>
      case Nm =>
      case Length =>
      case BulkDensity =>
      case RunTime =>
      case PulseTime =>
      case DeltaT =>
      case DeltaX =>
      case PorosityMacro =>
      case PorosityMeso =>
      case PorosityMicro =>
      case InstantMacro =>
      case InstantMeso =>
      case InstantMicro =>
      case FractionMacro =>
      case FractionMeso =>
      case FractionImmobile =>
      case EquilibriumMacro =>
      case EquilibriumMeso =>
      case EquilibriumMicro =>
      case RateMacro =>
      case RateMeso =>
      case RateMicro =>
      case MesoVelocity =>
      case MacroVelocity =>
      case TransferMicro =>
      case TransferMacro =>
      case Dispersivity =>
      case ObservationCount =>
    }
  }

  lemma PresetIn2(k: Key)
    ensures k in Modes()[2].presets
  {
    match k {
      case Nz =>
      case Nm =>
      case Length =>
      case BulkDensity =>
      case RunTime =>
      case PulseTime =>
      case DeltaT =>
      case DeltaX =>
      case PorosityMacro =>
      case PorosityMeso =>
      case PorosityMicro =>
      case InstantMacro =>
      case InstantMeso =>
      case InstantMicro =>
      case FractionMacro =>
      case FractionMeso =>
      case FractionImmobile =>
      case EquilibriumMacro =>
      case EquilibriumMeso =>
      case EquilibriumMicro =>
      case RateMacro =>
      case RateMeso =>
      case RateMicro =>
      case MesoVelocity =>
      case MacroVelocity =>
      case TransferMicro =>
      case TransferMacro =>
      case Dispersivity =>
      case ObservationCount =>
    }
  }

  lemma PresetIn3(k: Key)
    ensures k in Modes()[3].presets
  {
    match k {
      case Nz =>
      case Nm =>
      case Length =>
      case BulkDensity =>
      case RunTime =>
      case PulseTime =>
      case DeltaT =>
      case DeltaX =>
      case PorosityMacro =>
      case PorosityMeso =>
      case PorosityMicro =>
      case InstantMacro =>
      case InstantMeso =>
      case InstantMicro =>
      case FractionMacro =>
      case FractionMeso =>
      case FractionImmobile =>
      case EquilibriumMacro =>
      case EquilibriumMeso =>
      case EquilibriumMicro =>
      case RateMacro =>
      case RateMeso =>
      case RateMicro =>
      case MesoVelocity =>
      case MacroVelocity =>
      case TransferMicro =>
      case TransferMacro =>
      case Dispersivity =>
      case ObservationCount =>
    }
  }

  /** The mode table has the four modes, each complete. */
  lemma ModesNameEveryVariable()
    ensures |Modes()| == 4
    ensures Modes()[0].name == "ADE" && Modes()[1].name == "MIM" && Modes()[2].name == "MPNE" && Modes()[3].name == "DADE"
    ensures forall m :: m in Modes() ==> Complete(m.presets)
  {
    forall m | m in Modes() ensures Complete(m.presets) {
      var j :| 0 <= j < |Modes()| && Modes()[j] == m;
      ModeNamesEveryVariable(j);
    }
  }
}

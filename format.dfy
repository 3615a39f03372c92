/** The profiling mode enumeration and its lookup from the "mode" metadata
    value. */
module Format {
  import opened Wrappers

  datatype Mode = CPU | WALL | MEMORY | FULL

  /** The enumeration value of each mode. */
  function ModeValue(m: Mode): nat {
    match m
    case CPU => 0
    case WALL => 1
    case MEMORY => 2
    case FULL => 3
  }

  /** The metadata spelling of each mode. */
  function ModeName(m: Mode): string {
    match m
    case CPU => "cpu"
    case WALL => "wall"
    case MEMORY => "memory"
    case FULL => "full"
  }

  /** `Mode.from_metadata`: a dictionary lookup; None stands for the
      KeyError raised on any other string. */
  function FromMetadata(mode: string): (r: Option<Mode>)
    ensures r.Some? <==> mode in {"cpu", "wall", "memory", "full"}
    ensures r.Some? ==> ModeName(r.value) == mode
  {
    if mode == "cpu" then Some(CPU)
    else if mode == "wall" then Some(WALL)
    else if mode == "memory" then Some(MEMORY)
    else if mode == "full" then Some(FULL)
    else None
  }

  /** Looking up the name of a mode gives that mode back. */
  lemma FromMetadataName(m: Mode)
    ensures FromMetadata(ModeName(m)) == Some(m)
  {
  }

  /** The four modes have distinct values in 0..3. */
  lemma ModeValueInjective(m1: Mode, m2: Mode)
    ensures ModeValue(m1) < 4
    ensures ModeValue(m1) == ModeValue(m2) <==> m1 == m2
  {
  }
}

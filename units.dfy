/**
  The two constant tables of the formatter: unit symbols per standard (one row for bits,
  one for bytes) and the magnitude prefixes used for spelled-out names, each indexed by
  the magnitude tier 0..8.
*/
module Units {

  /** The naming conventions the tables know: IEC ("KiB", "kibi") and JEDEC ("KB", "kilo"). */
  datatype Standard = Iec | Jedec

  const MaxTier: nat := 8

  const IecBits: seq<string> := ["b", "Kib", "Mib", "Gib", "Tib", "Pib", "Eib", "Zib", "Yib"]
  const IecBytes: seq<string> := ["B", "KiB", "MiB", "GiB", "TiB", "PiB", "EiB", "ZiB", "YiB"]
  const JedecBits: seq<string> := ["b", "Kb", "Mb", "Gb", "Tb", "Pb", "Eb", "Zb", "Yb"]
  const JedecBytes: seq<string> := ["B", "KB", "MB", "GB", "TB", "PB", "EB", "ZB", "YB"]

  const IecPrefixes: seq<string> := ["", "kibi", "mebi", "gibi", "tebi", "pebi", "exbi", "zebi", "yobi"]
  const JedecPrefixes: seq<string> := ["", "kilo", "mega", "giga", "tera", "peta", "exa", "zetta", "yotta"]

  /** The symbol row of a standard: bits or bytes. */
  function SymbolRow(standard: Standard, bits: bool): (row: seq<string>)
    ensures |row| == MaxTier + 1
  {
    match standard
    case Iec => if bits then IecBits else IecBytes
    case Jedec => if bits then JedecBits else JedecBytes
  }

  /**
    The unit symbol of a tier. Every symbol ends in the unit marker ('b' for bits, 'B' for
    bytes), and only the tier-0 symbol is the bare marker. JEDEC symbols start with the
    tier's letter, IEC ones are that letter, 'i' and the marker.
  */
  function Symbol(standard: Standard, bits: bool, tier: nat): (s: string)
    requires tier <= MaxTier
    ensures s != []
    ensures tier == 0 <==> |s| == 1
    ensures s[|s| - 1] == if bits then 'b' else 'B'
    ensures standard == Jedec ==> s[0] == (if tier == 0 then s[|s| - 1] else "bKMGTPEZY"[tier])
    ensures standard == Iec && tier > 0 ==> |s| == 3 && s[1] == 'i'
  {
    SymbolRow(standard, bits)[tier]
  }

  /** The magnitude prefix of a tier ("" at tier 0). */
  function Prefix(standard: Standard, tier: nat): (p: string)
    requires tier <= MaxTier
    ensures p == "" <==> tier == 0
  {
    match standard
    case Iec => IecPrefixes[tier]
    case Jedec => JedecPrefixes[tier]
  }
}

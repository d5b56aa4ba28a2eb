/**
  The build tool and the kernel together: tables built for a symbol list answer every lookup
  with the names of that list.
 */
module KallsymsRoundTrip {
  import opened PairCoding
  import opened TokenChoice
  import opened KallsymsLimits
  import KallsymsWriter
  import opened KallsymsLookup

  /**
    For every sorted symbol list whose tables fit their formats and every text address at or above the
    first symbol, looking the address up in the compressed tables gives the original name, without its
    type character and cut to the buffer, of the first symbol at the greatest address that is not above it.
   */
  method BuildAndLookup(addresses: seq<nat>, names: seq<seq<Code>>, ranges: TextRanges, textEnd: nat, addr: nat,
                        namebuf: array<Code>)
    returns (found: bool, pos: nat, symbolSize: nat, offset: nat)
    requires |addresses| == |names| && names != [] && Sorted(addresses) && !Occurs(names, 0)
    requires KallsymsWriter.Fits(KallsymsWriter.Compressed(names))
    requires namebuf.Length >= KSYM_NAME_LEN
    modifies namebuf
    ensures found <==> ranges.start <= addr <= ranges.end || ranges.ramStart <= addr <= ranges.ramEnd
    ensures found && addresses[0] <= addr ==>
              && pos < |names| && addresses[pos] <= addr
              && (forall j :: 0 <= j < pos ==> addresses[j] < addresses[pos])
              && (forall j :: pos < j < |addresses| ==> addresses[j] == addresses[pos] || addr < addresses[j])
              && ShowsName(namebuf[..], names[pos], 32)
  {
    var img := KallsymsWriter.BuildTables(addresses, names);
    found, pos, symbolSize, offset := Lookup(img, ranges, textEnd, addr, namebuf, names);
  }

  /** The same for every sorted symbol list whose names have fewer than 64 codes: such lists always fit. */
  method BuildAndLookupShort(addresses: seq<nat>, names: seq<seq<Code>>, ranges: TextRanges, textEnd: nat, addr: nat,
                             namebuf: array<Code>)
    returns (found: bool, pos: nat, symbolSize: nat, offset: nat)
    requires |addresses| == |names| && names != [] && Sorted(addresses) && !Occurs(names, 0) && AllShort(names)
    requires namebuf.Length >= KSYM_NAME_LEN
    modifies namebuf
    ensures found <==> ranges.start <= addr <= ranges.end || ranges.ramStart <= addr <= ranges.ramEnd
    ensures found && addresses[0] <= addr ==>
              && pos < |names| && addresses[pos] <= addr
              && (forall j :: 0 <= j < pos ==> addresses[j] < addresses[pos])
              && (forall j :: pos < j < |addresses| ==> addresses[j] == addresses[pos] || addr < addresses[j])
              && ShowsName(namebuf[..], names[pos], 32)
  {
    ShortNamesFit(names);
    found, pos, symbolSize, offset := BuildAndLookup(addresses, names, ranges, textEnd, addr, namebuf);
  }
}

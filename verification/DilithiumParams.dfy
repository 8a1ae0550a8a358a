/** Parameters shared by the reference implementation of Dilithium (round 3), and its three modes. */
module DilithiumParams {
  const N := 256
  const Q := 8380417
  const D := 13

  /** The parameter sets, selected at build time in the source; mode 2 is its default. */
  datatype Mode = Mode2 | Mode3 | Mode5 {
    function K(): nat { match this case Mode2 => 4 case Mode3 => 6 case Mode5 => 8 }
    function L(): nat { match this case Mode2 => 4 case Mode3 => 5 case Mode5 => 7 }
    function Eta(): nat { if Mode3? then 4 else 2 }
    function Tau(): nat { match this case Mode2 => 39 case Mode3 => 49 case Mode5 => 60 }
    function Beta(): nat { match this case Mode2 => 78 case Mode3 => 196 case Mode5 => 120 }
    function Gamma1(): nat { if Mode2? then 0x2_0000 else 0x8_0000 }
    function Gamma2(): nat { if Mode2? then 95232 else 261888 }    // (Q - 1) / 88 and (Q - 1) / 32
    function ZBits(): nat { if Mode2? then 18 else 20 }
    function EtaBits(): nat { if Mode3? then 4 else 3 }
    function W1Bits(): nat { if Mode2? then 6 else 4 }
    function Omega(): nat { match this case Mode2 => 80 case Mode3 => 55 case Mode5 => 75 }
  }
}

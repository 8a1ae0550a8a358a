/** Parameters of the Kyber code (round 3), and the four parameter sets it can be built for. */
module KyberParams {
  const N := 256
  const Q := 3329

  /** Security strengths 1, 3, 5 and the larger set 6. */
  datatype Level = S1 | S3 | S5 | S6 {
    function K(): nat { match this case S1 => 2 case S3 => 3 case S5 => 4 case S6 => 5 }
    function Eta1(): nat { if S1? then 3 else 2 }
    function DU(): nat { if S1? || S3? then 10 else 11 }    // bits kept of a vector coefficient
    function DV(): nat { if S1? || S3? then 4 else 5 }      // bits kept of a message coefficient
  }
}

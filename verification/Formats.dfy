/** The sample formats that occur in axfer containers, with the widths and byte orders that
    alsa-lib gives for them. */
module Formats {

  datatype SampleFormat =
    | S8 | U8 | S16_LE | S16_BE | S24_LE | S24_BE | S32_LE | S32_BE
    | S24_3LE | S24_3BE | S20_3LE | S20_3BE | S18_3LE | S18_3BE
    | FLOAT_LE | FLOAT_BE | FLOAT64_LE | FLOAT64_BE | A_LAW | MU_LAW
  {
    /** snd_pcm_format_width: bits that carry the sample. */
    function Width(): nat {
      match this
      case S8 | U8 | A_LAW | MU_LAW => 8
      case S16_LE | S16_BE => 16
      case S18_3LE | S18_3BE => 18
      case S20_3LE | S20_3BE => 20
      case S24_LE | S24_BE | S24_3LE | S24_3BE => 24
      case S32_LE | S32_BE | FLOAT_LE | FLOAT_BE => 32
      case FLOAT64_LE | FLOAT64_BE => 64
    }

    /** snd_pcm_format_physical_width: bits a sample takes up. */
    function PhysicalWidth(): (w: nat)
      ensures w in {8, 16, 24, 32, 64}
    {
      match this
      case S8 | U8 | A_LAW | MU_LAW => 8
      case S16_LE | S16_BE => 16
      case S18_3LE | S18_3BE | S20_3LE | S20_3BE | S24_3LE | S24_3BE => 24
      case S24_LE | S24_BE | S32_LE | S32_BE | FLOAT_LE | FLOAT_BE => 32
      case FLOAT64_LE | FLOAT64_BE => 64
    }

    /** Whether snd_pcm_format_big_endian answers 1; formats of one byte have no order. */
    predicate BigEndian() {
      match this
      case S16_BE | S24_BE | S32_BE | S24_3BE | S20_3BE | S18_3BE | FLOAT_BE | FLOAT64_BE => true
      case _ => false
    }

    function SampleBytes(): nat {
      PhysicalWidth() / 8
    }
  }
}

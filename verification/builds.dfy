/**
 * The four rows under "Findings" in the README share three readings
 * gated by a build: `SelectCorrected` repairs both menu bounds
 * (etc-update.go:441 and :512). `AsWritten` follows the code, `Corrected`
 * applies the evident fix. Operations touched by a defect take the
 * reading as a parameter.
 */
module Builds {
  datatype Build = AsWritten | Corrected
}

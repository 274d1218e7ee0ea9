/** The physical constants the simulator reads. Each value is the decimal literal
    written in the C# source (or printed for Math.PI), read as an exact real; the
    doubles the program actually holds are the nearest binary fractions to these. */
module Constants {

  const PlanckConstant: real := 0.000000000000000000000000000000000662607015

  /** The shortest decimal that rounds to the double Math.PI (which is itself
      3.14159265358979311599…, not this decimal exactly). */
  const Pi: real := 3.141592653589793

  const ReducedPlanckConstant: real := PlanckConstant / (2.0 * Pi)

}

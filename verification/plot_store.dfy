/** The plot parameters store: which biomarker is on each axis of the
    scatter plot.  The object is a map from parameter name to value. */
module PlotStore {
  const LeftBiomarker: string := "leftBiomarker"
  const BottomBiomarker: string := "bottomBiomarker"

  /** The parameter names, the keys of the store. */
  predicate IsParameter(p: string)
  {
    p == LeftBiomarker || p == BottomBiomarker
  }

  /** The store's initial value: both axes empty. */
  function InitialParameters(): (r: map<string, string>)
    ensures forall p :: p in r <==> IsParameter(p)
    ensures forall p | p in r :: r[p] == ""
  {
    map[LeftBiomarker := "", BottomBiomarker := ""]
  }

  /** `setParameter`: a copy of the store with one parameter replaced. */
  function SetParameter(params: map<string, string>, parameter: string, value: string): (r: map<string, string>)
    requires IsParameter(parameter)
    ensures parameter in r && r[parameter] == value
    ensures forall p | p in params && p != parameter :: p in r && r[p] == params[p]
    ensures forall p :: p in r <==> p in params || p == parameter
  {
    params[parameter := value]
  }

  /** The last of two writes to a parameter wins, and writes to different
      parameters commute; the keys stay the two parameter names. */
  lemma SetParameterAlgebra(params: map<string, string>, p: string, q: string, v: string, w: string)
    requires IsParameter(p) && IsParameter(q)
    ensures SetParameter(SetParameter(params, p, v), p, w) == SetParameter(params, p, w)
    ensures p != q ==> SetParameter(SetParameter(params, p, v), q, w) == SetParameter(SetParameter(params, q, w), p, v)
    ensures (forall x :: x in params <==> IsParameter(x)) ==> (forall x :: x in SetParameter(params, p, v) <==> IsParameter(x))
  {
  }
}

/**
 * `InstrumentationType`: the kinds of feature-toggle instrumentation, and
 * `forType`, which picks the kind from the qualified name of an annotation
 * type.
 */
module Instrumentation {
  import opened Wrappers

  datatype InstrumentationType = FeatureToggle | FeatureMethodPair | ToggleObserver

  /** `IllegalArgumentException(message)`. */
  datatype Failure = IllegalArgument(message: string)

  const FeatureToggleName := "cz.auderis.infra.toggle.FeatureToggle"
  const FeatureMethodName := "cz.auderis.infra.toggle.FeatureMethod"
  const FeatureToggleObserverName := "cz.auderis.infra.toggle.FeatureToggleObserver"

  /** The annotation type each kind of instrumentation is triggered by. */
  function AnnotationName(kind: InstrumentationType): (qname: string)
    ensures qname in {FeatureToggleName, FeatureMethodName, FeatureToggleObserverName}
  {
    match kind
    case FeatureToggle => FeatureToggleName
    case FeatureMethodPair => FeatureMethodName
    case ToggleObserver => FeatureToggleObserverName
  }

  /**
   * `forType(elem)`, over the element's qualified name: one of the three
   * supported annotation types, or `IllegalArgumentException` for any other.
   */
  function ForType(qname: string): (r: Result<InstrumentationType, Failure>)
    ensures r.Ok? <==> qname in {FeatureToggleName, FeatureMethodName, FeatureToggleObserverName}
    ensures r.Ok? ==> AnnotationName(r.value) == qname
    ensures r.Err? ==> r.error == IllegalArgument("Unsupported annotation type: " + qname)
  {
    if qname == FeatureToggleName then Ok(FeatureToggle)
    else if qname == FeatureMethodName then Ok(FeatureMethodPair)
    else if qname == FeatureToggleObserverName then Ok(ToggleObserver)
    else Err(IllegalArgument("Unsupported annotation type: " + qname))
  }

  /** Every kind is recognised from its own annotation's name. */
  lemma ForTypeOfAnnotationName(kind: InstrumentationType)
    ensures ForType(AnnotationName(kind)) == Ok(kind)
  {
    assert FeatureToggleName != FeatureMethodName by {
      assert FeatureToggleName[31] == 'T' && FeatureMethodName[31] == 'M';
    }
    assert FeatureToggleName != FeatureToggleObserverName by {
      assert |FeatureToggleName| != |FeatureToggleObserverName|;
    }
    assert FeatureMethodName != FeatureToggleObserverName by {
      assert |FeatureMethodName| != |FeatureToggleObserverName|;
    }
  }

  /** The three supported names give three different kinds. */
  lemma SupportedNamesDistinct(a: string, b: string)
    requires ForType(a).Ok? && ForType(b).Ok? && a != b
    ensures ForType(a).value != ForType(b).value
  {
  }
}

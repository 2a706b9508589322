/** What a source says: a value, its age, and how sure the source is of it. */
module Readings {
  import opened Wrappers

  /** A floating value: a real, or one of the values no arithmetic may touch. */
  datatype Num = Finite(r: real) | NonFinite

  datatype Reading = Reading(value: Num, age: nat, confidence: Option<real>) {
    predicate Valid() {
      value.Finite? && value.r > 0.0
    }

    predicate Young(staleAfter: nat) {
      age < staleAfter
    }

    predicate Fresh(staleAfter: nat) {
      Young(staleAfter) && Valid()
    }

    predicate Uncertain(maxConfFrac: real) {
      match confidence
      case Some(conf) => value.Finite? && value.r > 0.0 && conf / value.r > maxConfFrac
      case None => false
    }
  }

  /** Uncertain means a half-width past the fraction of the value, and only a
      source that publishes one can be. */
  lemma UncertainIsWide(r: Reading, frac: real)
    requires r.Valid()
    ensures r.Uncertain(frac) <==> r.confidence.Some? && r.confidence.value > frac * r.value.r
  {
    if r.confidence.Some? {
      var q := r.confidence.value / r.value.r;
      assert q * r.value.r == r.confidence.value;
      if q > frac {
        Scaled(r.value.r, frac, q);
      } else if q < frac {
        Scaled(r.value.r, q, frac);
      }
    }
  }

  lemma Scaled(k: real, a: real, b: real)
    requires k > 0.0 && a < b
    ensures k * a < k * b
  {
  }
}

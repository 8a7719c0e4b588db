/**
 * `_construct_series_with_fallbacks`: a series constructor is retried with another
 * constructor chosen from the text of the TypeError it raised.
 */
module Fallbacks {
  import opened Wrappers

  /** The constructor in use: the one the caller passed, or the one
      `py_type_to_constructor` gives for float, str, int or Decimal. */
  datatype Constructor = Initial | FloatCtor | StrCtor | IntCtor | DecimalCtor

  const AllConstructors: set<Constructor> := {Initial, FloatCtor, StrCtor, IntCtor, DecimalCtor}

  lemma InAllConstructors(c: Constructor)
    ensures c in AllConstructors
  {
    match c
    case Initial =>
    case FloatCtor =>
    case StrCtor =>
    case IntCtor =>
    case DecimalCtor =>
  }

  /** What one call of a constructor does: it builds the series, raises a TypeError with a
      message, or raises some other exception. */
  datatype Attempt<S> = Built(series: S) | TypeErr(msg: string) | OtherErr(msg: string)

  /** What the retry loop ends with. `Cycles` stands for a loop that would retry forever, because
      a constructor already tried was chosen again. */
  datatype Outcome<S> = Done(series: S) | RaisedType(msg: string) | RaisedOther(msg: string) | Cycles

  /** `sub` occurs in `s` at position i. */
  predicate OccursAt(s: string, sub: string, i: int) {
    0 <= i <= |s| - |sub| && s[i..i + |sub|] == sub
  }

  /** `sub in s` for strings. */
  predicate Contains(s: string, sub: string) {
    exists i :: 0 <= i <= |s| && OccursAt(s, sub, i)
  }

  /** A string lacking one of the characters of `sub` does not contain it. */
  lemma MissingChar(s: string, sub: string, k: int)
    requires 0 <= k < |sub| && sub[k] !in s
    ensures !Contains(s, sub)
  {
    forall i | 0 <= i <= |s|
      ensures !OccursAt(s, sub, i)
    {
      if i <= |s| - |sub| {
        assert s[i..i + |sub|][k] == s[i + k];
      }
    }
  }

  /** The constructor the error text selects, tested in the source's order, or None when the
      error is re-raised. */
  function NextConstructor(msg: string): (c: Option<Constructor>)
    ensures c == Some(FloatCtor) <==> Contains(msg, "'float'")
    ensures c == Some(StrCtor) <==> !Contains(msg, "'float'") && (Contains(msg, "'str'") || msg == "must be real number, not str")
    ensures c == Some(IntCtor) <==> !Contains(msg, "'float'") && !Contains(msg, "'str'") && msg == "'int' object cannot be converted to 'PyBool'"
    ensures c == Some(DecimalCtor) <==> !Contains(msg, "'float'") && !Contains(msg, "'str'") && msg != "must be real number, not str" && msg != "'int' object cannot be converted to 'PyBool'" && Contains(msg, "decimal.Decimal")
    ensures c == None <==> !Contains(msg, "'float'") && !Contains(msg, "'str'") && msg != "must be real number, not str" && msg != "'int' object cannot be converted to 'PyBool'" && !Contains(msg, "decimal.Decimal")
  {
    if Contains(msg, "'float'") then Some(FloatCtor)
    else if Contains(msg, "'str'") || msg == "must be real number, not str" then Some(StrCtor)
    else if msg == "'int' object cannot be converted to 'PyBool'" then Some(IntCtor)
    else if Contains(msg, "decimal.Decimal") then Some(DecimalCtor)
    else None
  }

  /** The loop from constructor c on, when the constructors in `tried` were used before. */
  function Run<S>(attempt: Constructor -> Attempt<S>, c: Constructor, tried: set<Constructor>): Outcome<S>
    requires c !in tried
    decreases AllConstructors - tried
  {
    match attempt(c)
    case Built(s) => Done(s)
    case OtherErr(m) => RaisedOther(m)
    case TypeErr(m) =>
      match NextConstructor(m)
      case None => RaisedType(m)
      case Some(n) =>
        if n in tried + {c} then Cycles
        else
          InAllConstructors(c);
          Run(attempt, n, tried + {c})
  }

  /** `_construct_series_with_fallbacks(constructor, ...)`. */
  function ConstructWithFallbacks<S>(attempt: Constructor -> Attempt<S>): Outcome<S> {
    Run(attempt, Initial, {})
  }

  /** The loop itself: the constructor is reassigned after each TypeError it knows. */
  method ConstructSeriesWithFallbacks<S>(attempt: Constructor -> Attempt<S>) returns (r: Outcome<S>)
    ensures r == ConstructWithFallbacks(attempt)
  {
    var c := Initial;
    var tried: set<Constructor> := {};
    while true
      invariant c !in tried && tried <= AllConstructors
      invariant Run(attempt, c, tried) == ConstructWithFallbacks(attempt)
      decreases AllConstructors - tried
    {
      var a := attempt(c);
      match a
      case Built(s) =>
        return Done(s);
      case OtherErr(m) =>
        return RaisedOther(m);
      case TypeErr(m) =>
        var next := NextConstructor(m);
        if next.None? {
          return RaisedType(m);
        }
        if next.value in tried + {c} {
          return Cycles;
        }
        InAllConstructors(c);
        tried := tried + {c};
        c := next.value;
    }
  }

  /** A constructor that succeeds first time is returned at once. */
  lemma ImmediateSuccess<S>(attempt: Constructor -> Attempt<S>, s: S)
    requires attempt(Initial) == Built(s)
    ensures ConstructWithFallbacks(attempt) == Done(s)
  {
  }

  /** Whatever the loop returns was built by one of the constructors; a TypeError comes out only
      when its text selects no constructor; any other exception comes out unchanged. */
  lemma {:induction false} RunOutcome<S>(attempt: Constructor -> Attempt<S>, c: Constructor, tried: set<Constructor>)
    requires c !in tried
    ensures Run(attempt, c, tried).Done? ==> exists d :: attempt(d) == Built(Run(attempt, c, tried).series)
    ensures Run(attempt, c, tried).RaisedType? ==>
      NextConstructor(Run(attempt, c, tried).msg).None? && exists d :: attempt(d) == TypeErr(Run(attempt, c, tried).msg)
    ensures Run(attempt, c, tried).RaisedOther? ==> exists d :: attempt(d) == OtherErr(Run(attempt, c, tried).msg)
    decreases AllConstructors - tried
  {
    match attempt(c)
    case Built(s) =>
    case OtherErr(m) =>
    case TypeErr(m) =>
      match NextConstructor(m)
      case None =>
      case Some(n) =>
        if n !in tried + {c} {
          InAllConstructors(c);
          RunOutcome(attempt, n, tried + {c});
        }
  }

  lemma FallbacksOutcome<S>(attempt: Constructor -> Attempt<S>)
    ensures ConstructWithFallbacks(attempt).Done? ==> exists d :: attempt(d) == Built(ConstructWithFallbacks(attempt).series)
    ensures ConstructWithFallbacks(attempt).RaisedType? ==> NextConstructor(ConstructWithFallbacks(attempt).msg).None?
  {
    RunOutcome(attempt, Initial, {});
  }

  /** A message that starts with `'float'` selects the float constructor. */
  lemma FloatMessage(msg: string)
    requires |msg| >= 7 && msg[..7] == "'float'"
    ensures NextConstructor(msg) == Some(FloatCtor)
  {
    assert OccursAt(msg, "'float'", 0);
  }

  /** The float-to-string message lacks a quote, so only its exact text selects str. */
  lemma RealNumberMessage(msg: string)
    requires msg == "must be real number, not str"
    ensures NextConstructor(msg) == Some(StrCtor)
  {
    assert '\'' !in msg;
    MissingChar(msg, "'float'", 0);
  }

  /** A TypeError from the first constructor whose text selects another constructor, which then
      builds the series: that series is the result. */
  lemma SecondAttempt<S>(attempt: Constructor -> Attempt<S>, m: string, n: Constructor, s: S)
    requires attempt(Initial) == TypeErr(m) && NextConstructor(m) == Some(n)
    requires attempt(n) == Built(s)
    ensures ConstructWithFallbacks(attempt) == Done(s)
  {
    assert Initial in AllConstructors;
  }

  /** A TypeError whose text selects no constructor is raised again at once. */
  lemma Reraised<S>(attempt: Constructor -> Attempt<S>, m: string)
    requires attempt(Initial) == TypeErr(m)
    requires !Contains(m, "'float'") && !Contains(m, "'str'") && !Contains(m, "decimal.Decimal")
    requires m != "must be real number, not str" && m != "'int' object cannot be converted to 'PyBool'"
    ensures ConstructWithFallbacks(attempt) == RaisedType(m)
  {
  }
}

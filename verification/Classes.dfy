/**
 * The static classification of a shape against the classification of what is disclosed through it: the
 * announced class is the greatest one, and no evaluation exceeds it.
 */
module Classes {
  import opened JsonModel
  import opened Disclosure
  import opened Compiler

  /** Some rule of the shape, at any depth, has the class. */
  ghost predicate HasClass(s: Shape, c: Classification) {
    || s.rule.classification == c
    || match s
       case Scalar(_) => false
       case Object(_, fields) => exists k :: k in fields && HasClass(fields[k], c)
       case List(_, _, _, item) => HasClass(item, c)
  }

  lemma GreatestIsGreatest(classes: set<Classification>)
    ensures forall c :: c in classes ==> c.Level() <= Greatest(classes).Level()
    ensures classes != {} ==> Greatest(classes) in classes
  {
    if c :| c in classes {
      assert c.Public? || c.Internal? || c.Confidential? || c.Restricted? || c.Secret?;
    }
  }

  /** The recursive maximum occurs in the shape, and no rule of the shape, however deep, exceeds it. */
  lemma {:induction false} MaximumIsGreatest(s: Shape)
    ensures HasClass(s, MaximumClassification(s))
    ensures forall c :: HasClass(s, c) ==> c.Level() <= MaximumClassification(s).Level()
    decreases s
  {
    match s
    case Scalar(_) =>
    case List(_, _, _, item) => MaximumIsGreatest(item);
    case Object(rule, fields) =>
      var classes := set k | k in fields :: MaximumClassification(fields[k]);
      GreatestIsGreatest(classes);
      forall k | k in fields
        ensures MaximumClassification(fields[k]) in classes && HasClass(fields[k], MaximumClassification(fields[k]))
        ensures forall c :: HasClass(fields[k], c) ==> c.Level() <= MaximumClassification(fields[k]).Level()
      {
        MaximumIsGreatest(fields[k]);
      }
      LevelsAreInjective();
      if classes == {} {
        assert Greatest(classes) == Public;
      }
  }

  lemma LevelsAreInjective()
    ensures forall a: Classification, b: Classification :: a.Level() == b.Level() ==> a == b
  {
  }

  lemma {:induction false} VisitedClassOccurs(v: Json, s: Shape, rule: Rule)
    requires Visits(v, s, rule)
    ensures HasClass(s, rule.classification)
    decreases v
  {
    if rule != s.rule {
      match (v, s)
      case (JObject(entries), Object(_, fields)) =>
        var i :| 0 <= i < |entries| && entries[i].key in fields
          && Visits(entries[i].value, fields[entries[i].key], rule);
        VisitedClassOccurs(entries[i].value, fields[entries[i].key], rule);
        assert entries[i].key in fields;
      case (JArray(items), List(_, _, _, item)) =>
        var i :| 0 <= i < |items| && Visits(items[i], item, rule);
        VisitedClassOccurs(items[i], item, rule);
      case _ =>
    }
  }

  /** An evaluation never reports a class above the one announced for the whole shape. */
  lemma EvaluatedClassIsAnnounced(v: Json, s: Shape, c: Classification)
    requires IsMaximumClass(v, s, c)
    ensures c.Level() <= MaximumClassification(s).Level()
  {
    var rule :| Visits(v, s, rule) && rule.classification == c;
    VisitedClassOccurs(v, s, rule);
    MaximumIsGreatest(s);
  }
}

/** Matching a candidate embedding against the enrolled templates. */
module TemplateMatching {
  import opened Wrappers
  import opened Embeddings
  import opened FaceEngine

  datatype FaceMatchDecision = MatchAccepted | MatchRejectedBelowThreshold

  datatype FaceTemplateMatch = FaceTemplateMatch(
    templateRef: string,
    userId: string,
    poseGroup: FacePoseGroup,
    score: real,
    decision: FaceMatchDecision)

  datatype FaceTemplateMatcher = FaceTemplateMatcher(threshold: real, sqrt: SquareRoot) {

    /** Similarity of two embeddings; incomparable embeddings score zero. */
    function Score(enrolled: Embedding, candidate: Embedding): real {
      match Cosine(sqrt, enrolled, candidate)
      case Some(score) => score
      case None => 0.0
    }

    function MatchOf(template: FaceTemplate, candidate: Embedding): FaceTemplateMatch {
      var score := Score(template.embedding, candidate);
      FaceTemplateMatch(template.templateRef, template.userId, template.poseGroup, score,
                        if score >= threshold then MatchAccepted else MatchRejectedBelowThreshold)
    }

    function BestMatch(templates: seq<FaceTemplate>, candidate: Embedding): Option<FaceTemplateMatch> {
      LastMaximum(Map(template => MatchOf(template, candidate), templates))
    }

    function BestCompatibleMatch(templates: seq<FaceTemplate>, model: FaceModelDescriptor, candidate: Embedding)
      : Option<FaceTemplateMatch>
    {
      BestMatch(Compatible(templates, model), candidate)
    }
  }

  function Compatible(templates: seq<FaceTemplate>, model: FaceModelDescriptor): seq<FaceTemplate> {
    Filter((template: FaceTemplate) => template.IsCompatibleWith(model), templates)
  }

  /** A maximum by score; of several equal ones, the last. */
  function LastMaximum(matches: seq<FaceTemplateMatch>): Option<FaceTemplateMatch> {
    if matches == [] then None
    else
      var last := matches[|matches| - 1];
      match LastMaximum(matches[..|matches| - 1])
      case None => Some(last)
      case Some(best) => Some(if best.score > last.score then best else last)
  }

  /** Nothing scores higher than the match at `i`, and nothing behind it as high. */
  predicate LastMaximumAt(matches: seq<FaceTemplateMatch>, i: nat)
    requires i < |matches|
  {
    forall j :: 0 <= j < |matches| ==> matches[j].score <= matches[i].score && (i < j ==> matches[j].score < matches[i].score)
  }

  lemma {:induction false} LastMaximumIsOne(matches: seq<FaceTemplateMatch>)
    ensures LastMaximum(matches).None? <==> matches == []
    ensures LastMaximum(matches).Some? ==>
              exists i :: 0 <= i < |matches| && LastMaximum(matches).value == matches[i] && LastMaximumAt(matches, i)
  {
    if matches != [] {
      var n := |matches| - 1;
      LastMaximumIsOne(matches[..n]);
      if n > 0 {
        var i :| 0 <= i < n && LastMaximum(matches[..n]).value == matches[..n][i] && LastMaximumAt(matches[..n], i);
        MaximumOfOneMore(matches, i);
        assert LastMaximum(matches).value == matches[if matches[i].score > matches[n].score then i else n];
      } else {
        assert LastMaximumAt(matches, 0);
      }
    }
  }

  lemma MaximumOfOneMore(matches: seq<FaceTemplateMatch>, i: nat)
    requires i < |matches| - 1 && LastMaximumAt(matches[..|matches| - 1], i)
    ensures LastMaximumAt(matches, if matches[i].score > matches[|matches| - 1].score then i else |matches| - 1)
  {
    assert forall j :: 0 <= j < |matches| - 1 ==> matches[j] == matches[..|matches| - 1][j];
  }

  /** Where the filtered list keeps an element, the original list has it, in the same order. */
  lemma {:induction false} CompatiblePosition(templates: seq<FaceTemplate>, model: FaceModelDescriptor, k: nat)
    returns (i: nat)
    requires k < |Compatible(templates, model)|
    ensures i < |templates| && templates[i] == Compatible(templates, model)[k]
    ensures templates[i].IsCompatibleWith(model)
    ensures Compatible(templates[i + 1..], model) == Compatible(templates, model)[k + 1..]
  {
    var last := |templates| - 1;
    var init := templates[..last];
    var kept := Compatible(init, model);
    if k < |kept| {
      i := CompatiblePosition(init, model, k);
      assert templates[i + 1..][..last - i - 1] == init[i + 1..];
    } else {
      i := last;
      assert templates[i + 1..] == [];
    }
  }

  /**
   * The best compatible match is an enrolled template of the recognition model that no
   * compatible template outscores and that no later compatible template equals.  There
   * is one exactly when some template is compatible.
   */
  lemma BestCompatibleMatchIsSound(matcher: FaceTemplateMatcher, templates: seq<FaceTemplate>,
                                   model: FaceModelDescriptor, candidate: Embedding)
    ensures var best := matcher.BestCompatibleMatch(templates, model, candidate);
            && (best.Some? <==> exists t :: t in templates && t.IsCompatibleWith(model))
            && (best.Some? ==> IsBestCompatible(matcher, templates, model, candidate, best.value))
  {
    var kept := Compatible(templates, model);
    var matches := Map(template => matcher.MatchOf(template, candidate), kept);
    FilterKeeps((template: FaceTemplate) => template.IsCompatibleWith(model), templates);
    LastMaximumIsOne(matches);
    if kept != [] {
      assert kept[0] in kept;
      var k :| 0 <= k < |matches| && LastMaximum(matches).value == matches[k] && LastMaximumAt(matches, k);
      var i := CompatiblePosition(templates, model, k);
      forall j | 0 <= j < |templates| && templates[j].IsCompatibleWith(model)
        ensures matcher.Score(templates[j].embedding, candidate) <= matcher.Score(templates[i].embedding, candidate)
        ensures i < j ==>
                  matcher.Score(templates[j].embedding, candidate) < matcher.Score(templates[i].embedding, candidate)
      {
        assert templates[j] in kept;
        var m :| 0 <= m < |kept| && kept[m] == templates[j];
        assert matches[m].score <= matches[k].score;
        if i < j {
          FilterKeeps((template: FaceTemplate) => template.IsCompatibleWith(model), templates[i + 1..]);
          assert templates[i + 1..][j - i - 1] == templates[j];
          assert templates[j] in kept[k + 1..];
          var n :| k + 1 <= n < |kept| && kept[n] == templates[j];
          assert matches[n].score < matches[k].score;
        }
      }
      assert IsBestCompatibleAt(matcher, templates, model, candidate, LastMaximum(matches).value, i);
    } else {
      assert forall t :: t in templates && t.IsCompatibleWith(model) ==> t in kept;
    }
  }

  ghost predicate IsBestCompatible(matcher: FaceTemplateMatcher, templates: seq<FaceTemplate>,
                                   model: FaceModelDescriptor, candidate: Embedding, best: FaceTemplateMatch)
  {
    exists i :: IsBestCompatibleAt(matcher, templates, model, candidate, best, i)
  }

  /** `best` describes template `i`, the last of the highest scoring compatible ones. */
  ghost predicate IsBestCompatibleAt(matcher: FaceTemplateMatcher, templates: seq<FaceTemplate>,
                                     model: FaceModelDescriptor, candidate: Embedding,
                                     best: FaceTemplateMatch, i: int)
  {
    && 0 <= i < |templates| && templates[i].IsCompatibleWith(model)
    && best == matcher.MatchOf(templates[i], candidate)
    && (forall j :: 0 <= j < |templates| && templates[j].IsCompatibleWith(model) ==>
                      matcher.Score(templates[j].embedding, candidate) <= best.score)
    && (forall j :: i < j < |templates| && templates[j].IsCompatibleWith(model) ==>
                      matcher.Score(templates[j].embedding, candidate) < best.score)
  }

  /** The length of the candidate embedding plays no part in which template matches. */
  lemma MatchIgnoresCandidateScale(matcher: FaceTemplateMatcher, templates: seq<FaceTemplate>,
                                   model: FaceModelDescriptor, candidate: Embedding, factor: real)
    requires IsSquareRoot(matcher.sqrt) && factor > 0.0
    ensures matcher.BestCompatibleMatch(templates, model, Scale(factor, candidate)) ==
            matcher.BestCompatibleMatch(templates, model, candidate)
  {
    var kept := Compatible(templates, model);
    var plain := Map(template => matcher.MatchOf(template, candidate), kept);
    var scaled := Map(template => matcher.MatchOf(template, Scale(factor, candidate)), kept);
    forall i | 0 <= i < |kept| ensures plain[i] == scaled[i] {
      CosineIgnoresScale(matcher.sqrt, factor, kept[i].embedding, candidate);
    }
    assert plain == scaled;
  }

  // ----- what a match says of the embeddings -----

  /** The angle between two embeddings is small enough; incomparable ones count as being at a right angle. */
  predicate CloseEnough(sqrt: SquareRoot, enrolled: Embedding, candidate: Embedding, t: real) {
    if Comparable(enrolled, candidate) then WithinAngle(sqrt, enrolled, candidate, t) else 0.0 >= t
  }

  /**
   * The score of a template times the two lengths is the dot product of the embeddings, and
   * the template is accepted exactly when the dot product reaches that share of the lengths.
   */
  lemma MatchMeasuresTheAngle(matcher: FaceTemplateMatcher, template: FaceTemplate, candidate: Embedding, t: real)
    requires IsSquareRoot(matcher.sqrt)
    ensures var found, enrolled := matcher.MatchOf(template, candidate), template.embedding;
            && found.templateRef == template.templateRef && found.userId == template.userId && found.poseGroup == template.poseGroup
            && (if Comparable(enrolled, candidate)
                then found.score * (Length(matcher.sqrt, enrolled) * Length(matcher.sqrt, candidate)) == Dot(enrolled, candidate)
                else found.score == 0.0)
            && (found.score >= t <==> CloseEnough(matcher.sqrt, enrolled, candidate, t))
            && (found.decision.MatchAccepted? <==> CloseEnough(matcher.sqrt, enrolled, candidate, matcher.threshold))
  {
    CosineMeasuresTheAngle(matcher.sqrt, template.embedding, candidate, t);
    CosineMeasuresTheAngle(matcher.sqrt, template.embedding, candidate, matcher.threshold);
  }

  /** Some compatible template is close enough to the candidate. */
  ghost predicate SomeCloseEnough(sqrt: SquareRoot, templates: seq<FaceTemplate>, model: FaceModelDescriptor,
                                  candidate: Embedding, t: real)
  {
    exists i :: 0 <= i < |templates| && templates[i].IsCompatibleWith(model)
                && CloseEnough(sqrt, templates[i].embedding, candidate, t)
  }

  /** The best match reaches a score exactly when some compatible template is that close to the candidate. */
  lemma BestMatchIsTheClosest(matcher: FaceTemplateMatcher, templates: seq<FaceTemplate>, model: FaceModelDescriptor,
                              candidate: Embedding, t: real)
    requires IsSquareRoot(matcher.sqrt)
    requires exists template :: template in templates && template.IsCompatibleWith(model)
    ensures var best := matcher.BestCompatibleMatch(templates, model, candidate);
            && best.Some?
            && (best.value.score >= t <==> SomeCloseEnough(matcher.sqrt, templates, model, candidate, t))
            && (best.value.decision.MatchAccepted? <==>
                SomeCloseEnough(matcher.sqrt, templates, model, candidate, matcher.threshold))
  {
    BestCompatibleMatchIsSound(matcher, templates, model, candidate);
    var best := matcher.BestCompatibleMatch(templates, model, candidate).value;
    var i :| IsBestCompatibleAt(matcher, templates, model, candidate, best, i);
    BestReaches(matcher, templates, model, candidate, best, i, t);
    BestReaches(matcher, templates, model, candidate, best, i, matcher.threshold);
  }

  lemma BestReaches(matcher: FaceTemplateMatcher, templates: seq<FaceTemplate>, model: FaceModelDescriptor, candidate: Embedding,
                    best: FaceTemplateMatch, i: int, t: real)
    requires IsSquareRoot(matcher.sqrt) && IsBestCompatibleAt(matcher, templates, model, candidate, best, i)
    ensures best.score >= t <==> SomeCloseEnough(matcher.sqrt, templates, model, candidate, t)
  {
    MatchMeasuresTheAngle(matcher, templates[i], candidate, t);
    if best.score < t {
      forall j | 0 <= j < |templates| && templates[j].IsCompatibleWith(model)
        ensures !CloseEnough(matcher.sqrt, templates[j].embedding, candidate, t)
      {
        MatchMeasuresTheAngle(matcher, templates[j], candidate, t);
        assert matcher.MatchOf(templates[j], candidate).score <= best.score;
      }
    }
  }
}

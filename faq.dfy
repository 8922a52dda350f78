/**
 * The FAQ section: seven questions shown as an accordion, and the same entries published
 * as a schema.org FAQPage record for search engines.
 */
module Faq {
  import opened Wrappers
  import opened Strings
  import opened Json

  datatype Faq = Faq(question: string, answer: string)

  const Faqs: seq<Faq> := [
    Faq("What is Codmek Softech?",
        "Codmek Softech is an AI-native technology company headquartered in Jaipur, India. We operate across five verticals \U{2014} Research, Studio, Learn, Solutions, and Nexus \U{2014} to deliver cutting-edge artificial intelligence products, creative design, education programs, and enterprise solutions."),
    Faq("What services does Codmek offer?",
        "We offer AI research and development, creative design and branding through Codmek Studio, AI education and mentorship via Codmek Learn, enterprise AI solutions and automation through Codmek Solutions, and strategic partnerships via Codmek Nexus."),
    Faq("Does Codmek work with startups or only enterprises?",
        "We work with organizations of all sizes \U{2014} from early-stage startups to large enterprises. Our Solutions division tailors AI systems and automation to fit your scale, while our Nexus platform connects you with the right partners and resources."),
    Faq("What technologies does Codmek specialize in?",
        "Our expertise spans machine learning, deep learning, natural language processing, computer vision, generative AI, and neural architecture design. We also build modern web applications, design systems, and full-stack platforms."),
    Faq("How can I collaborate or partner with Codmek?",
        "Visit our Nexus page to explore partnership opportunities, or reach out through our Contact page. We welcome collaborations in research, co-development, and innovation ecosystem building."),
    Faq("Does Codmek offer AI training or courses?",
        "Yes! Codmek Learn provides AI literacy programs, research mentorships, hands-on workshops, and innovation bootcamps designed for students, professionals, and organizations looking to upskill in artificial intelligence."),
    Faq("Where is Codmek located?",
        "Codmek Softech is headquartered in Jaipur, Rajasthan, India. We serve clients globally and collaborate with partners across multiple countries.")
  ]

  /** One `Question` entity of the record. */
  function QuestionEntity(faq: Faq): Json {
    JObj([("@type", JStr("Question")), ("name", JStr(faq.question)),
          ("acceptedAnswer", JObj([("@type", JStr("Answer")), ("text", JStr(faq.answer))]))])
  }

  /** `mainEntity`: one entity per FAQ, in the same order. */
  function MainEntity(faqs: seq<Faq>): (r: seq<Json>)
    ensures |r| == |faqs|
  {
    seq(|faqs|, i requires 0 <= i < |faqs| => QuestionEntity(faqs[i]))
  }

  /** `faqJsonLd` */
  function FaqJsonLd(faqs: seq<Faq>): Json {
    JObj([("@context", JStr("https://schema.org")), ("@type", JStr("FAQPage")),
          ("mainEntity", JArr(MainEntity(faqs)))])
  }

  // ---------------------------------------------------------------------------
  // Reading the record back, as a consumer of the structured data would
  // ---------------------------------------------------------------------------

  /** The question and answer of a `Question` entity. */
  function ReadQuestion(entity: Json): Option<Faq> {
    if !entity.JObj? then None
    else match (Member<Json>(entity.members, "name"), Member<Json>(entity.members, "acceptedAnswer"))
      case (Some(JStr(q)), Some(JObj(answer))) =>
        (match Member<Json>(answer, "text")
         case Some(JStr(a)) => Some(Faq(q, a))
         case _ => None)
      case _ => None
  }

  /** Every entity read back, in order; `None` if any entity is malformed. */
  function ReadQuestions(entities: seq<Json>): (r: Option<seq<Faq>>)
    ensures r.Some? ==> |r.value| == |entities|
  {
    if entities == [] then Some([])
    else match (ReadQuestion(entities[0]), ReadQuestions(entities[1..]))
      case (Some(f), Some(rest)) => Some([f] + rest)
      case _ => None
  }

  /** The FAQs a FAQPage record lists. */
  function ReadFaqPage(record: Json): Option<seq<Faq>> {
    if !record.JObj? then None
    else match Member<Json>(record.members, "mainEntity")
      case Some(JArr(entities)) => ReadQuestions(entities)
      case _ => None
  }

  /** Each entity names its question and carries its answer as the accepted answer's text. */
  lemma ReadQuestionEntity(faq: Faq)
    ensures ReadQuestion(QuestionEntity(faq)) == Some(faq)
  {
    var am := [("@type", JStr("Answer")), ("text", JStr(faq.answer))];
    var m := [("@type", JStr("Question")), ("name", JStr(faq.question)), ("acceptedAnswer", JObj(am))];
    assert QuestionEntity(faq) == JObj(m);
    assert Member(m, "name") == Some(JStr(faq.question)) by {
      assert m[0].0 != "name";
      assert m[1..][0] == ("name", JStr(faq.question));
    }
    assert Member(m, "acceptedAnswer") == Some(JObj(am)) by {
      assert m[0].0 != "acceptedAnswer";
      assert m[1..][0].0 != "acceptedAnswer";
      assert m[1..][1..][0] == ("acceptedAnswer", JObj(am));
    }
    assert Member(am, "text") == Some(JStr(faq.answer)) by {
      assert am[0].0 != "text";
      assert am[1..][0] == ("text", JStr(faq.answer));
    }
  }

  lemma {:induction false} ReadQuestionsOfMainEntity(faqs: seq<Faq>)
    ensures ReadQuestions(MainEntity(faqs)) == Some(faqs)
    decreases |faqs|
  {
    if faqs != [] {
      assert MainEntity(faqs)[1..] == MainEntity(faqs[1..]);
      ReadQuestionsOfMainEntity(faqs[1..]);
      ReadQuestionEntity(faqs[0]);
      assert [faqs[0]] + faqs[1..] == faqs;
    }
  }

  /**
   * The record lists exactly the FAQs, one entity each, in order, each with its own
   * question as `name` and its own answer as `acceptedAnswer.text`.
   */
  lemma FaqJsonLdRoundTrip(faqs: seq<Faq>)
    ensures ReadFaqPage(FaqJsonLd(faqs)) == Some(faqs)
  {
    var m := FaqJsonLd(faqs).members;
    assert m[0].0 != "mainEntity" && m[1].0 != "mainEntity" && m[2].0 == "mainEntity";
    ReadQuestionsOfMainEntity(faqs);
  }

  // ---------------------------------------------------------------------------
  // The accordion
  // ---------------------------------------------------------------------------

  datatype AccordionItem = AccordionItem(value: string, trigger: string, content: string)

  /** The accordion value of the item at `index`. */
  function AccordionValue(index: nat): (v: string)
    ensures StartsWith(v, "item-")
  {
    "item-" + NatToString(index)
  }

  /** The accordion's items: one per FAQ, in order. */
  function AccordionItems(faqs: seq<Faq>): (r: seq<AccordionItem>)
    ensures |r| == |faqs|
    ensures forall i :: 0 <= i < |r| ==> r[i].trigger == faqs[i].question && r[i].content == faqs[i].answer
  {
    seq(|faqs|, i requires 0 <= i < |faqs| => AccordionItem(AccordionValue(i), faqs[i].question, faqs[i].answer))
  }

  /** No two accordion items share a value, so opening one never opens another. */
  lemma AccordionValuesDistinct(i: nat, j: nat)
    requires AccordionValue(i) == AccordionValue(j)
    ensures i == j
  {
    var v := AccordionValue(i);
    assert NatToString(i) == v[5..] == NatToString(j);
    NatToStringInjective(i, j);
  }

  /** The accordion and the record describe the shipped FAQs item for item. */
  lemma AccordionMatchesRecord(i: nat)
    requires i < |Faqs|
    ensures ReadQuestion(MainEntity(Faqs)[i]) == Some(Faq(AccordionItems(Faqs)[i].trigger, AccordionItems(Faqs)[i].content))
  {
    ReadQuestionEntity(Faqs[i]);
  }
}

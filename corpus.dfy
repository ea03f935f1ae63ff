/** The static knowledge base `RENTAL_PRICING_DOCS` of rag.ts and the lookup
    by id (`Array.prototype.find`) used when results are assembled. */
module Corpus {
  import opened Primitives

  /** One reference document, with the relevance score it is declared with. */
  datatype Doc = Doc(id: string, title: string, category: string, content: string, relevanceScore: real)

  /** No two documents share an id. */
  predicate DistinctDocIds(docs: seq<Doc>) {
    forall i, j :: 0 <= i < j < |docs| ==> docs[i].id != docs[j].id
  }

  /** The category labels the corpus must cover. */
  const RequiredCategories: set<string> :=
    {"Market Analysis", "Pricing Strategy", "Launch Readiness", "Risk Assessment", "Technology"}

  // The document titles.
  const MarketAnalysisTitle: string := "Market Analysis Fundamentals - Egyptian Real Estate"
  const PricingStrategyTitle: string := "Pricing Strategy Framework for Egyptian Rentals"
  const LaunchReadinessTitle: string := "Launch Readiness Checklist - Egyptian Real Estate"
  const RiskAssessmentTitle: string := "Risk Assessment & Mitigation - Egyptian Market"
  const TechnologyTitle: string := "Technology Implementation for Rental Management"

  // The first non-empty line of each document's content, without the leading
  // newline the text starts with. The rest is not needed, since retrieval
  // only digests the content and copies it out.
  const MarketAnalysisText: string :=
    "Real estate rental pricing in Egypt requires comprehensive market analysis considering local economic conditions."
  const PricingStrategyText: string :=
    "Dynamic pricing adjusts rates based on demand, seasonality, and events in the Egyptian market."
  const LaunchReadinessText: string :=
    "Pre-launch requirements for rental properties in Egypt:"
  const RiskAssessmentText: string :=
    "Common rental pricing risks in the Egyptian market:"
  const TechnologyText: string :=
    "Modern tech stack for Egyptian rental property management:"

  /** `RENTAL_PRICING_DOCS`: five documents with distinct ids and non-empty
      titles and contents, each declared with relevance score 0. */
  function RentalPricingDocs(): (docs: seq<Doc>)
    ensures |docs| == 5
    ensures DistinctDocIds(docs)
    ensures forall i :: 0 <= i < |docs| ==> docs[i].title != "" && docs[i].content != ""
    ensures forall i :: 0 <= i < |docs| ==> docs[i].relevanceScore == 0.0
  {
    var docs :=
    [ Doc("doc_001", MarketAnalysisTitle, "Market Analysis", MarketAnalysisText, 0.0),
      Doc("doc_002", PricingStrategyTitle, "Pricing Strategy", PricingStrategyText, 0.0),
      Doc("doc_003", LaunchReadinessTitle, "Launch Readiness", LaunchReadinessText, 0.0),
      Doc("doc_004", RiskAssessmentTitle, "Risk Assessment", RiskAssessmentText, 0.0),
      Doc("doc_005", TechnologyTitle, "Technology", TechnologyText, 0.0) ];
    docs
  }

  /** The categories of the corpus are exactly the required ones. */
  lemma CorpusCategories()
    ensures (set i | 0 <= i < |RentalPricingDocs()| :: RentalPricingDocs()[i].category) == RequiredCategories
  {
    var docs := RentalPricingDocs();
    assert docs[0].category == "Market Analysis" && docs[1].category == "Pricing Strategy" &&
           docs[2].category == "Launch Readiness" && docs[3].category == "Risk Assessment" &&
           docs[4].category == "Technology";
    assert (set i | 0 <= i < |docs| :: docs[i].category) ==
           {docs[0].category, docs[1].category, docs[2].category, docs[3].category, docs[4].category};
  }

  /** `docs.find((d) => d.id === id)`: the first document with that id, if any. */
  function Find(docs: seq<Doc>, id: string): (r: Option<Doc>)
    ensures r.Some? ==> r.value in docs && r.value.id == id
    ensures r.None? <==> forall i :: 0 <= i < |docs| ==> docs[i].id != id
    ensures r.Some? ==> exists i :: 0 <= i < |docs| && docs[i] == r.value &&
                                    forall j :: 0 <= j < i ==> docs[j].id != id
  {
    if docs == [] then None
    else if docs[0].id == id then Some(docs[0])
    else Find(docs[1..], id)
  }

  /** The set of ids of `docs`. */
  function Ids(docs: seq<Doc>): set<string> {
    if docs == [] then {} else Ids(docs[..|docs| - 1]) + {docs[|docs| - 1].id}
  }

  /** An id is in `Ids(docs)` exactly when some document has it. */
  lemma {:induction false} IdsMember(docs: seq<Doc>, id: string)
    ensures id in Ids(docs) <==> exists i :: 0 <= i < |docs| && docs[i].id == id
  {
    if docs != [] {
      var n := |docs| - 1;
      IdsMember(docs[..n], id);
      if id in Ids(docs[..n]) {
        var i :| 0 <= i < n && docs[..n][i].id == id;
        assert docs[i].id == id;
      } else if exists i :: 0 <= i < n && docs[i].id == id {
        var i :| 0 <= i < n && docs[i].id == id;
        assert docs[..n][i].id == id;
      }
    }
  }

  /** With distinct ids, looking up a document's id finds that document. */
  lemma {:induction false} FindDistinct(docs: seq<Doc>, i: nat)
    requires i < |docs|
    requires DistinctDocIds(docs)
    ensures Find(docs, docs[i].id) == Some(docs[i])
  {
    if i > 0 {
      assert docs[0].id != docs[i].id;
      assert docs[1..][i - 1] == docs[i];
      FindDistinct(docs[1..], i - 1);
    }
  }
}

/** Shared data types of the study app: the catalog records the session
    machines read, and the optional value used for nullable React state. */
module Types {

  /** A nullable value (`T | null` in the app's state hooks). */
  datatype Option<+T> = None | Some(value: T)

  /** The subjects a catalog record can be filed under. */
  datatype Subject =
    | History | Polity | Geography | Economy | CurrentAffairs | GeneralKnowledge
    | Interview | Strategy | ScienceTech | Environment | ArtCulture | Ethics

  /** One multiple-choice question of the practice catalog. Nothing in the
      record type itself ties `correctAnswerIndex` to `options`; see
      `WellFormedMcq`. */
  datatype McqData = McqData(
    id: int,
    subject: Subject,
    question: string,
    options: seq<string>,
    correctAnswerIndex: int,
    explanation: string)

  /** One flashcard: a question with its answer. */
  datatype FlashcardData = FlashcardData(
    id: int,
    subject: Subject,
    question: string,
    answer: string)

  /** The correct answer of a question names one of its options. */
  predicate WellFormedMcq(q: McqData) {
    0 <= q.correctAnswerIndex < |q.options|
  }

  /** A catalog the practice loop can run on: at least one question, and
      every question well formed. */
  predicate WellFormedCatalog(qs: seq<McqData>) {
    |qs| > 0 && forall k :: 0 <= k < |qs| ==> WellFormedMcq(qs[k])
  }

  /** The bundled practice catalog. */
  const MCQS: seq<McqData> := [
    McqData(1, Polity, "Which article of the Indian Constitution deals with the Right to Equality?",
      ["Article 14", "Article 19", "Article 21", "Article 32"], 0,
      "Article 14 guarantees equality before the law and equal protection of the laws to all persons within the territory of India."),
    McqData(2, History, "The Battle of Plassey was fought in:",
      ["1757", "1764", "1857", "1947"], 0,
      "The Battle of Plassey was a decisive victory of the British East India Company over the Nawab of Bengal and his French allies on 23 June 1757."),
    McqData(3, Geography, "Which is the highest peak in India?",
      ["Mount Everest", "K2", "Kangchenjunga", "Nanda Devi"], 2,
      "Kangchenjunga, located in Sikkim, is the highest peak in India and the third highest in the world. K2 is in POK."),
    McqData(4, Economy, "What does \"Fiscal Deficit\" mean?",
      ["Total revenue minus total expenditure",
       "Government's total expenditure minus its total revenue, excluding borrowing",
       "Revenue deficit plus capital expenditure",
       "Government's market borrowings"], 1,
      "Fiscal Deficit is the difference between the total expenditure of the government and its total revenue, which indicates the total borrowing needs of the government."),
    McqData(5, CurrentAffairs, "Who is the current Chief Justice of India (as of late 2023)?",
      ["N. V. Ramana", "U. U. Lalit", "D. Y. Chandrachud", "S. A. Bobde"], 2,
      "Justice Dhananjaya Y. Chandrachud is the 50th and current Chief Justice of India.")
  ]

  /** The bundled catalog meets the practice loop's requirements. */
  lemma BundledCatalogWellFormed()
    ensures WellFormedCatalog(MCQS)
    ensures |MCQS| == 5
  {
  }
}

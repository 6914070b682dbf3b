/**
 * The values one chat turn works on: the stored messages, the documents the
 * retrieval chain returns, and the reply of the answer call.
 */
module ChatTypes {

  datatype Option<T> = None | Some(value: T)

  /** The two roles a stored message can have ("user" and "assistant"). */
  datatype Role = User | Assistant

  /** One entry of the session's message history: {"role": ..., "content": ...}. */
  datatype Message = Message(role: Role, content: string)

  type Url = string

  /** A retrieved document: its text and its metadata dictionary. */
  datatype Document = Document(pageContent: string, metadata: map<string, string>)

  /** What a successful answer call returns: response["result"] and response["source_documents"]. */
  datatype Answer = Answer(result: string, sourceDocuments: seq<Document>)

  /** The outcome of the answer call: an answer, or an exception raised by the chain. */
  datatype Reply = Answered(answer: Answer) | ServiceError

  /** The metadata key whose value is cited under the answer. */
  const SourceUrlKey: string := "source_url"

  /** The prefix shown before each cited URL. */
  const CitationPrefix: string := "参考元："

  predicate HasSourceUrl(d: Document)
  {
    SourceUrlKey in d.metadata
  }

  /** Every document carries a source_url, so the citation loop runs to the end. */
  predicate AllCited(docs: seq<Document>)
  {
    forall i :: 0 <= i < |docs| ==> HasSourceUrl(docs[i])
  }
}

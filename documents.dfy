/** A document as the graph engine sees it: a file name and its text, the categories
    and summary that the chat-completion steps attach to it (given inputs here), and
    the fields `tokens`, `counts` and `vector` that computeTfIdf adds in place. */
module Documents {

  class Document {
    const name: string
    const text: string
    var categories: seq<string>
    var summary: string
    /** Filled by computeTfIdf: the document's tokens in order. */
    var tokens: seq<string>
    /** Filled by computeTfIdf: how often each distinct token occurs. */
    var counts: map<string, nat>
    /** Filled by computeTfIdf: the TF-IDF weight of each distinct token. Before that
        the field is absent in the source; the model starts it as the empty vector. */
    var vector: map<string, real>

    constructor (name: string, text: string, categories: seq<string>, summary: string)
      ensures this.name == name && this.text == text
      ensures this.categories == categories && this.summary == summary
      ensures tokens == [] && counts == map[] && vector == map[]
    {
      this.name := name;
      this.text := text;
      this.categories := categories;
      this.summary := summary;
      tokens := [];
      counts := map[];
      vector := map[];
    }
  }
}

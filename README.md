# Occupational Safety and Health Act chatbot: text handling, modelled in Dafny

The application answers questions about the Korean Occupational Safety and
Health Act (산업안전보건법). It fetches the statute's articles, indexes them in
a vector store, retrieves the articles closest to a question, and asks a
language model to answer from them. This project models the parts of
`app.py` that are plain text handling, and proves what they guarantee:

- **Article records** (`articles.dfy`). `get_law_articles` turns each parsed
  `조문단위` element (number, title, content, and the texts of its `항`
  paragraphs) into a record `{article_no, title, full_text}`. `full_text` is
  `제{no}조`, then `({title})` when there is a title, a line break, the
  content and a line break when there is content, and the non-empty `항`
  texts joined by line breaks. The whole is then stripped of surrounding
  whitespace. An article with neither content nor a non-empty `항` is dropped.
  `BuildArticleRecords` is the loop itself, with its inner loop over the `항`
  texts. It is proved equal to the specification `Normalise`, and the lemmas
  state what that specification guarantees.
- **Whitespace stripping** (`text.dfy`). Python's `str.strip()`, over the
  exact set of characters Python's `str.isspace()` accepts.
- **Sequence helpers** (`sequences.dfy`). The keep-the-non-empty-ones filter
  and `str.join`. Each comes with an index-based description: which input
  positions the filter keeps, and at which offset each joined piece and each
  separator sits.
- **Index ids** (`vector_index.dfy`). `build_vector_db` adds record `idx`
  under the id `article_{idx}`, with the record's full text as the document
  and its number and title as metadata. Ids are distinct, and each id leads
  back to its record.
- **Prompt and previews** (`chatbot.dfy`). `ask_chatbot` joins the retrieved
  documents with `\n\n---\n\n` and places them and the question into a fixed
  prompt template. The answer view shows each reference cut to 500 characters
  plus `...`.

Where the general design description of the system and this version of
`app.py` differ, the model follows the code. This version has no keyword or
rule matcher, no merging or deduplication of results, no per-kind character
caps and no truncation marker carrying the original length. Its full texts
start with `제{no}조(title)`, not with a `[source] number(title)` prefix. None
of those are modelled.

## Model

| member | source | states |
|---|---|---|
| `Articles.BuildArticleRecords` | app.py:58-87 | The record-building loop, nested loop included, returns exactly `Normalise(raws)`: the formatted records of the kept articles. |
| `Articles.NormaliseOrder` | app.py:58-87 | The records keep input order. There is one record per kept article and none for a dropped one, so never more records than articles. Number and title are copied verbatim. |
| `Articles.NormaliseFormatsKept` | app.py:80-85 | The k-th record is the formatted k-th kept article. |
| `Articles.NormaliseStep` | app.py:80-85 | One more input article adds its own record at the end exactly when it is kept, and nothing otherwise. |
| `Articles.KeptIff` | app.py:65-80 | An article yields a record if and only if its content is non-empty or one of its `항` texts is non-empty. |
| `Articles.NonEmptyHangsExact` | app.py:65-69 | The collected `항` texts are exactly the non-empty ones, at strictly increasing input positions. |
| `Articles.HangsInOrder` | app.py:65-78 | After the lead, the raw text holds each non-empty `항` text whole at its offset. Neighbours are separated by a single line break, and nothing follows the last one. |
| `Articles.RawTextOpens` | app.py:71-76 | The raw text begins with the titled heading and a line break, then the rest of the lead. |
| `Articles.RawTextStart` | app.py:71 | The raw text begins with `제{no}조`: its first character is `제` and the heading ends in `조`. |
| `Articles.FullTextFromRaw` | app.py:71-84 | The full text is a prefix of the raw text. Only whitespace was cut from the end, and every non-whitespace character survives. |
| `Articles.FullTextStartsWithHeading` | app.py:71-84 | Every record's full text starts with `"제" + article_no + "조"`. |
| `Articles.TitleFollowsHeading` | app.py:71-73 | `"(" + title + ")"` follows the heading in the full text if and only if the title is non-empty. |
| `Articles.FullTextTrimmed` | app.py:84 | A full text is never empty, and neither starts nor ends with whitespace. |
| `Text.SkipLeading` | app.py:84 | The index where stripping starts: within bounds, and at a character other than whitespace when one remains. |
| `Text.SkipLeadingSkipsWhitespace` | app.py:84 | Everything skipped at the start is whitespace. |
| `Text.SkipTrailing` | app.py:84 | The index where stripping stops: within bounds, just past a character other than whitespace when one remains. |
| `Text.SkipTrailingSkipsWhitespace` | app.py:84 | Everything skipped at the end is whitespace. |
| `Text.Strip` | app.py:84 | `str.strip()` never lengthens a string. Its result is empty or starts and ends with characters other than whitespace. |
| `Text.StripRemovesOnlyWhitespace` | app.py:84 | The stripped text is the slice between the leading and trailing whitespace. Everything removed is whitespace, and every other character is kept. |
| `Text.StripNoLeading` | app.py:84 | A string that does not start with whitespace loses only trailing whitespace. |
| `Text.StripKeepsFirst` | app.py:84 | A string that starts with a character other than whitespace keeps that character first. |
| `Text.StripIdempotent` | app.py:84 | Stripping twice equals stripping once. |
| `Sequences.Filter` | app.py:65-69 | The kept `항` texts are no more than the input, and every one of them passes the test. |
| `Sequences.FilterAt` | app.py:65-69 | The filter result is the input at its passing positions, in strictly increasing order, and a position passes iff its element does. |
| `Sequences.FilterEmptyIff` | app.py:77-80 | Nothing is collected if and only if no element passes the test. |
| `Sequences.FilterSnoc` | app.py:66-69 | One more element extends the filter result by that element exactly when it passes. |
| `Sequences.JoinAt` | app.py:78 | `sep.join(xs)` holds the i-th piece at its offset, one separator after every piece but the last, and nothing after the last. |
| `Sequences.JoinFrom` | app.py:78 | From the i-th piece's offset on, the joined string is the join of the pieces from i on. |
| `Sequences.JoinFirst` | app.py:78 | A join opens with its first piece, followed by a separator and the join of the rest. |
| `Sequences.OffsetNext` | app.py:78 | Each piece starts one piece and one separator after the previous piece. |
| `Sequences.JoinAtAfter` | app.py:76-78 | `JoinAt` for a join that follows a fixed lead text, as the `항` part follows the lead. |
| `VectorIndex.BuildIndexEntries` | app.py:101-110 | One entry per record, in order. Entry `idx` has id `article_{idx}`, the record's untruncated full text, and its number and title. The ids are pairwise distinct, and each leads back to its record. |
| `VectorIndex.DecimalString` | app.py:109 | `str(idx)` is a non-empty digit string that starts with `0` only for zero. |
| `VectorIndex.DecimalRoundTrip` | app.py:109 | Reading the decimal string of `n` back gives `n`. |
| `VectorIndex.ParseArticleIdRoundTrip` | app.py:109 | The position can be read back from its id `article_{idx}`. |
| `VectorIndex.ArticleIdsDistinct` | app.py:109 | Distinct positions get distinct ids. |
| `VectorIndex.ArticleForIdAt` | app.py:101-109 | The id of position `idx` resolves to `articles[idx]`. |
| `Chatbot.Context` | app.py:129 | The context is empty if and only if there are no documents, or only one empty document. |
| `Chatbot.ContextAt` | app.py:129 | Each retrieved document appears whole in the context, in retrieval order, with one `\n\n---\n\n` between neighbours. |
| `Chatbot.PromptRoundTrip` | app.py:134-150 | The context sits unchanged in the fixed template and can be read back out of the prompt, given the question. |
| `Chatbot.PromptWithoutDocuments` | app.py:129-150 | With no documents, the prompt's context section is empty. |
| `Chatbot.ComposeCarriesDocuments` | app.py:125-158 | The prompt carries exactly the joined documents, and the returned references are the documents themselves. |
| `Chatbot.Preview` | app.py:228 | The preview equals the reference when it has at most 500 characters. Otherwise it is the first 500 characters followed by `...`, 503 in all. |
| `Chatbot.PreviewIdempotent` | app.py:228 | Previewing a preview changes nothing. |

## Left out

- Fetching the statute from law.go.kr and parsing its XML (app.py:46-56, 60-66) are network I/O and a foreign library. The model starts from the extracted fields. A missing element reads as the empty string, as `findtext(..., '')` returns.
- Sentence embeddings, Chroma collection creation, deletion and insertion, and the nearest-neighbour query with `n_results=3` (app.py:39-41, 92-99, 103-105, 114-123) involve floating point and opaque library calls. The documents a query returns are an input to `Chatbot.Compose`.
- The language-model call and its `max_tokens` (app.py:132, 152-158) are an external service. Only the prompt handed to it is modelled.
- The Streamlit page, sidebar, chat history, spinners, error display and the loop that renders each preview (app.py:16-33, 163-234) are UI. Only the preview text is modelled.
- `st.cache_resource` and `st.cache_data` caching is framework behaviour.
- The metadata title `article['title'] or ""` (app.py:108) is the title itself in the model. A record's title is always a string, possibly empty, so `or ""` changes nothing.
- Python strings are sequences of code points. The model's `char` is a Unicode scalar value, so lengths and the 500-character cut agree for any text without lone surrogates.

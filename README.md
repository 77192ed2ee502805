# NBA rulebook chatbot: citation post-processing

The chatbot asks a Bedrock knowledge base a question and gets back a nested
answer record. `query_knowledge_base` turns that record into a flat list of
citation dictionaries. `main` then turns each dictionary into what the page
shows:

- a location badge ("Rule 10, Section II, Part b, Page 3") built from the
  citation's metadata;
- a preview of the excerpt, cut at 200 characters;
- a relevance badge;
- a "Read full excerpt" expander.

This project models that post-processing and proves what it promises.

Modules:

- `Wrappers` (`wrappers.dfy`): `Option` and `Result`. A dictionary key the
  code tests with `in` or reads with `.get` is an `Option` field.
- `PyStrings` (`py_strings.dfy`): the Python string operations the code uses.
  `Split` is `str.split` with a one-character separator, `Join` is
  `str.join`, and `LastSegment` is `s.split(d)[-1]`.
- `KnowledgeBase` (`knowledge_base.dfy`): the response record, the
  per-reference citation record (`CitationOf`, built step by step by
  `BuildCitation`), the nested extraction loop (`ExtractCitations`) and the
  whole `query_knowledge_base` with its error paths (`QueryKnowledgeBase`).
- `CitationDisplay` (`citation_display.dfy`): the location label, the
  preview and the expander condition, gathered in `CardOf`. app.py has the
  per-citation body twice, word for word: at lines 618-663 for messages
  replayed from the history and at lines 689-734 for a fresh answer. Both are
  `CardOf`.

The Bedrock client and the remote call are not modelled. They become two
parameters of `QueryKnowledgeBase`:

- `clientAvailable` says whether `get_bedrock_client` returned a client;
- `outcome` is what `retrieve_and_generate` did: it returned a response,
  raised a `ClientError` (error code and message), or raised some other
  exception (its text).

## Model

| member | source | states |
|---|---|---|
| `PyStrings.Split` | app.py:444 | `str.split` with a one-character separator always yields at least one piece, and no piece contains the separator |
| `PyStrings.Join` | app.py:640 | `str.join` of no pieces is empty; otherwise the result starts with the first piece |
| `PyStrings.LastSegment` | app.py:443-444 | `uri.split('/')[-1]` holds no "/", ends the URI, and is either the whole URI or is preceded by a "/": it is the text after the last "/" |
| `PyStrings.LastSegmentUnique` | app.py:444 | any suffix with those three properties is the segment, so they define it |
| `PyStrings.JoinSplit` | app.py:444 | joining the pieces of `split('/')` with "/" gives back the URI |
| `KnowledgeBase.Select` | app.py:435-470 | the `if`/`elif` chain picks a kind that is present and has no present kind before it in the order S3, Web, Confluence, Salesforce, SharePoint; it picks nothing exactly when no kind is present |
| `KnowledgeBase.FirstPresentUnique` | app.py:439-467 | only one kind can be the first present one, so only one location entry is used |
| `KnowledgeBase.FilenameOf` | app.py:442-446 | the filename never contains "/"; it is "Unknown file" for the URI "Unknown", and otherwise the part of the URI after its last "/" |
| `KnowledgeBase.FilenameExample` | app.py:444 | "s3://nba-rules/2024/rulebook.pdf" gives the filename "rulebook.pdf" |
| `KnowledgeBase.CitationOf` | app.py:427-478 | these fields take fixed defaults when absent: content (else "No content available"), metadata (else empty), score (kept exactly when present); with no location, or none of the five kinds, uri and source type stay "Unknown" and there is no filename; otherwise the first present kind alone sets uri (its link, else "Unknown") and source type ("Unknown" for S3, the kind's name for the others), and a filename exists exactly for S3 |
| `KnowledgeBase.BuildCitation` | app.py:427-478 | the step-by-step construction of `citation_data` yields exactly the record `CitationOf` describes |
| `KnowledgeBase.ExtractCitations` | app.py:422-480 | the nested loops emit exactly one record per retrieved reference, in nested input order, and record k is the record of reference k |
| `KnowledgeBase.FlattenAppend` | app.py:423-426 | the references of consecutive groups come out group after group: flattening distributes over concatenation |
| `KnowledgeBase.FlattenMembership` | app.py:423-426 | a reference is visited exactly when some citation group lists it under `retrievedReferences` |
| `KnowledgeBase.FlattenLength` | app.py:423-480 | the number of records equals the sum of the lengths of the groups' reference lists; groups without the key contribute none |
| `KnowledgeBase.NoReferences` | app.py:422-426 | a response without `citations`, or whose groups all lack `retrievedReferences`, yields no records |
| `KnowledgeBase.QueryKnowledgeBase` | app.py:382-489 | no client: "Error: Could not initialize Bedrock client" and no citations; a `ClientError`: "AWS Error (code): message" and no citations; any other exception, including a missing `output` or `text` key: "Error querying knowledge base: " plus its text and no citations; otherwise the generated text and one record per reference; a non-empty citation list implies the call succeeded |
| `CitationDisplay.LocationComponentsSoundOrdered` | app.py:624-637 | each label component carries its title's metadata value, and titles come in strictly increasing order Rule, Section, Part, Article, Page |
| `CitationDisplay.LocationComponentsComplete` | app.py:626-637 | a title whose key is present (for Part: `part` or `subsection`) has a component |
| `CitationDisplay.LocationComponentsSpec` | app.py:624-637 | each label component carries its title's metadata value; titles come in strictly increasing order Rule, Section, Part, Article, Page, so each appears at most once; every title whose key is present appears |
| `CitationDisplay.PartAtMostOnce` | app.py:631-633 | at most one "Part" component, valued `metadata['part']` when present and `metadata['subsection']` otherwise |
| `CitationDisplay.LocationLabel` | app.py:623-640 | the label is absent exactly when none of rule, section, part, subsection, article, page is a key; when present it is the ", "-join of the rendered components that `LocationComponentsSpec` characterises (each "Title value", in the order Rule, Section, Part, Article, Page, every present key included), so it is non-empty and starts with the first rendered component |
| `CitationDisplay.LabelIgnoresOtherKeys` | app.py:626-637 | two metadata maps that agree on the six label keys give the same label |
| `CitationDisplay.LabelExample` | app.py:623-640 | rule 10, section II, subsection b, page 3 give "Rule 10, Section II, Part b, Page 3" |
| `CitationDisplay.Preview` | app.py:651-652 | the preview is at most 203 characters and starts with the content's first min(len, 200) characters; content over 200 characters gives exactly 203 characters ending in "..." after the first 200; it equals the content exactly when the content is at most 200 long, or is 203 long and already ends in "..." |
| `CitationDisplay.CardOf` | app.py:618-663 | the badge is shown exactly when the label exists, so exactly when some label key is present; the relevance badge carries the record's score, and is absent exactly when the score is; the preview is `Preview` of the content; the expander appears exactly when the content is over 200 characters and holds the whole content; without it the preview is the whole content |
| `CitationDisplay.BareReferenceCard` | app.py:428 | a reference with no content and no metadata is shown as "No content available" in full, with no expander and no badge |

## Left out

- The Streamlit page: setup, CSS, the scroll script, the sidebar, the welcome screen and every rendering call. These are presentation only.
- The chat history in `st.session_state.messages`: the appends, the clear button and the rerun. This is UI bookkeeping, so the model keeps no session state.
- `get_bedrock_client`: it reads credentials and builds a boto3 client, both foreign calls. Its result is the `clientAvailable` parameter.
- The `retrieve_and_generate` call and the prompt f-string built for it. The call is a remote procedure call; its result or exception is the `outcome` parameter.
- test_connection.py is not part of this model: it consists entirely of network calls, file reads, prints and `sys.exit`.
- CitationDisplay.CardOf: it keeps the raw score rather than the "Relevance: x.x%" text. Multiplying by 100 and formatting with `:.1f` is floating-point output.
- Values of other types: the model types every field, so a response whose values have the wrong JSON type (a `None`, a non-dictionary `content`) is not represented. The only exception path modelled inside the response is a missing `output` or `text` key. It raises `KeyError`, whose text is the key in quotes.
- Metadata values are strings. Bedrock may also return numbers or lists, which the f-strings would format differently.
- The score is a `real` that is only copied, never computed with.
- Python slices strings by code point, and Dafny's `char` is a Unicode scalar value, so `content[:200]` is `content[..200]`. No encoding or normalisation is involved.

# Incident knowledge graph: a Dafny model

This project models the core of a pipeline that turns the Licensee Event Reports (LERs) of a
nuclear plant into knowledge graphs of incidents, and proves properties of that model. The
pipeline reads the report PDFs and their texts, extracts each report's fields, cleans the
resulting tables, builds an in-memory networkx graph of incidents, CFR clauses and
attribute values, writes Neo4j graphs in which incidents with similar tasks or HSI issues are
linked, restructures those graphs into cause chains, and ranks incidents by weighted
similarity.

The modules follow the source files:

| module | file | models |
|---|---|---|
| `Text` | text.dfy | the Python `str` operations the scripts use (`split`, `join`, `strip`, `replace`, `find`, `lower`, `str(n)`, `os.path.splitext`, `list(set(...))`) |
| `DataPaths` | data_paths.dfy | `src/data/__init__.py` |
| `RegulationText` | regulation_text.dfy | category and requirement extraction of `src/data/regulation_crawler.py` |
| `LerPages` | ler_pages.dfy | start-page selection of `src/preprocessing/1_ler_to_text.py` |
| `LerFields` | ler_fields.dfy | artifact cleaning and field extraction of `src/preprocessing/ler_cfr_mapping.py` |
| `LerText` | ler_text.dfy | line-oriented section extraction of `src/run/2_text_to_df.py` |
| `DfCleaner` | df_cleaner.dfy | the "Not Found" row filter of `src/run/3_df_cleaner.py` |
| `CfrList` | cfr_list.dfy | both `5_cfr_data.py` scripts |
| `FacilitySplit` | facility_split.dfy | the facility/unit split of `src/preprocessing/6_clean_data.py` |
| `RefineData` | refine_data.dfy | CSV export of `src/human_error/3_refine_data.py` |
| `DiGraphs` | networkx.dfy | the networkx `DiGraph`, as a class |
| `CfrGraph`, `Incidents`, `Relations`, `Scripts` | cfr_graph.dfy, incidents.dfy, relations.dfy, scripts.dfy | `src/knowledge_graph/7_knowledge_graph.py`, `src/run/7_knowledge_graph.py`, `src/run/8_inference.py` |
| `Records` | records.dfy | the incident records and the embedding-similarity oracle |
| `PropertyGraph` | graph_store.dfy | the Neo4j store: MERGE, SET, `create`, delete-all, as a class and as write lists |
| `IncidentIngest`, `Linking`, `GraphScript`, `TaskGraph`, `HsiGraph` | incident_ingest.dfy, linking.dfy, graph_script.dfy, kg_task.dfy, kg_hsi.dfy | `src/knowledge_graph/8_kg.py` and `src/knowledge_graph/8_kg_HSI.py` |
| `HumanErrorGraph` | new_kg.dfy | `src/human_error/2_new_kg.py` |
| `Restruct` | restruct.dfy | `src/knowledge_graph/9_restruct.py` |
| `Similarity` | similarity.dfy | `src/knowledge_graph/7_similarity.py` |

Each script that changes state step by step is a method with loop invariants. The Neo4j store
and the networkx graph are classes whose methods update their fields. Each method is proved
against a function of the old state, and the lemmas about those functions state what the
scripts promise: node sharing under MERGE, idempotence, one similarity edge per ordered pair,
the counts of `create`d relationships, the order of rows, round trips of `split` and `join`.

Where the code and its description disagree, the model follows the code:

- A `SIMILAR_TASK` or `SIMILAR_HSI` relationship is MERGEd without properties and then SET. So
  there is one such relationship per ordered pair of incidents, carrying the scores of the
  last item pair written, not one per item pair.
- A facility cell with a line break does not always lose both fields. The `$` of the pattern
  also matches just before a final line break, as in Python's `re`. The `\s*` of the unit
  suffix may itself cross a line break. Both fields are unknown only when the lazy first
  group runs into a line break before any ending matches.

## Model

| member | source | states |
|---|---|---|
| DataPaths.GetDataPath | src/data/__init__.py:18-41 | "ler" and "regulations" in any ASCII letter case select `data/raw/` followed by the lower-cased name, and exactly those two names succeed; any other name gives the `ValueError` message "Unknown data type: " followed by the name as given |
| RegulationText.Categories | src/data/regulation_crawler.py:122-130 | every category is one of the nine fixed keywords |
| RegulationText.HasWord | src/data/regulation_crawler.py:129 | `re.search(rf'\b{keyword}\b', text)` finds a match: the keyword occurs with a word boundary on each side |
| RegulationText.ExtractCategories | src/data/regulation_crawler.py:120-132 | a keyword is returned exactly when `\bkeyword\b` matches the lower-cased content, and no keyword is returned twice (the order of `list(set(...))` is left open) |
| RegulationText.CategoriesJoin | src/data/regulation_crawler.py:128-130 | joining two texts with a space keeps every category of either: whole-word matches survive the join |
| RegulationText.SplitStops | src/data/regulation_crawler.py:137 | `re.split(r'[.!?]+', content)` always yields at least one piece |
| RegulationText.SplitNoStop | src/data/regulation_crawler.py:137 | no piece of the split holds `.`, `!` or `?` |
| RegulationText.Requirements | src/data/regulation_crawler.py:136-146 | the stripped pieces of `re.split(r'[.!?]+', content)` whose lower-cased text contains one of the five keywords, in order |
| RegulationText.ExtractRequirements | src/data/regulation_crawler.py:134-146 | the loop returns exactly `Requirements(content)`: the stripped sentences that pass the keyword test, in order |
| RegulationText.RequirementsSpec | src/data/regulation_crawler.py:139-144 | a text is returned exactly when it is a stripped sentence of the content and its lower-cased form contains one of must, shall, required, necessary or mandatory |
| RegulationText.RequirementsClean | src/data/regulation_crawler.py:137-142 | no requirement holds a sentence stop, and none starts or ends with whitespace |
| RegulationText.KeptSpec | src/data/regulation_crawler.py:141-144 | a sentence is kept exactly when its normalised form passes the test |
| RegulationText.KeptAppend | src/data/regulation_crawler.py:141-146 | filtering two lists of sentences one after the other is filtering each, so the kept sentences keep their order |
| RegulationText.SplitConcat | src/data/regulation_crawler.py:137 | two texts joined by one stop split into the pieces of the first followed by the pieces of the second, when the first does not end in a stop and the second does not start with one |
| RegulationText.RequirementsConcat | src/data/regulation_crawler.py:134-146 | the requirements of `a + "." + b` are those of `a` followed by those of `b`, under the same condition |
| RegulationText.KeywordInside | src/data/regulation_crawler.py:143 | the keyword test is a substring test: any text with a requirement keyword inside it qualifies, so "unnecessary" does through "necessary" |
| LerPages.ExtractReportText | src/preprocessing/1_ler_to_text.py:17-36 | the text computed for a readable report is `ReportText(pages)` |
| LerPages.FindStartPage | src/preprocessing/1_ler_to_text.py:18-25 | the first loop returns the index of the first page whose upper-cased text contains "LICENSEE EVENT REPORT (LER)", or none |
| LerPages.CollectTexts | src/preprocessing/1_ler_to_text.py:32-35 | the second loop collects the texts of the pages from the start page to the last, a page without text read as "" |
| LerPages.StartPage | src/preprocessing/1_ler_to_text.py:18-25 | the index of the first page whose upper-cased text ("" for a page without text) holds "LICENSEE EVENT REPORT (LER)", or none |
| LerPages.StartPageSpec | src/preprocessing/1_ler_to_text.py:18-29 | there is no start page exactly when no page carries the heading; otherwise the start page carries it and no earlier page does |
| LerPages.ReportText | src/preprocessing/1_ler_to_text.py:27-36 | the text written for a readable report: the fixed not-found message without a start page, otherwise the texts from the start page on joined with line breaks |
| LerPages.ReportBegins | src/preprocessing/1_ler_to_text.py:31-36 | the text written begins with the start page's text: the pages before it are dropped |
| LerPages.HeadingKept | src/preprocessing/1_ler_to_text.py:20-36 | every text written for a readable report contains the heading once upper-cased, either from its first page or in the not-found message |
| LerPages.ProcessAllPdfs | src/preprocessing/1_ler_to_text.py:11-50 | the output directory after the run is the old one overwritten by `Written` of the `.pdf` files of the listing (any letter case), in listing order; an unreadable report writes "Error extracting text." |
| LerPages.WrittenNames | src/preprocessing/1_ler_to_text.py:39 | a file is written exactly for each report's stem followed by `.txt` |
| LerPages.WrittenLast | src/preprocessing/1_ler_to_text.py:39-50 | each file holds what the last report with its stem yields |
| RefineData.Lookup | src/human_error/3_refine_data.py:34-38 | `metadata[k1][k2]...`: the string at the end of the path, or none where a key is missing |
| RefineData.RowOf | src/human_error/3_refine_data.py:22-44 | a record raises exactly when one of its five metadata paths is missing; otherwise its row has the eleven columns of the header: the file name, the five attributes joined with ", " (missing ones empty) and the five metadata strings |
| RefineData.WriteRows | src/human_error/3_refine_data.py:12-44 | the loop writes exactly `Export(data)` and reports whether it stopped at a record that raised |
| RefineData.WrittenStops | src/human_error/3_refine_data.py:22-44 | once a record raises, nothing more is written whatever follows |
| RefineData.WrittenRows | src/human_error/3_refine_data.py:16-44 | the file starts with the header and then holds the rows in record order; a run that does not fail writes one row per record |
| RefineData.WrittenOutcome | src/human_error/3_refine_data.py:22-44 | the run fails exactly when some record raises, and then the rows of the records before the first such one are all that follows the header |
| RefineData.Export | src/human_error/3_refine_data.py:12-44 | the lines the script writes, header first and one row per record until a record raises, and whether one did |
| RefineData.ExportSpec | src/human_error/3_refine_data.py:16-44 | the same, stated on the records: header first, one row per record in order, each equal to `RowOf` of its record, failure exactly at the first record without all its metadata |
| CfrList.CollectCfr | src/preprocessing/5_cfr_data.py:12-16 | the first loop collects `AllTokens(cells)`: the stripped comma-separated pieces of every present cell, in table order |
| CfrList.AllTokensSpec | src/preprocessing/5_cfr_data.py:13-16 | a token is collected exactly when it is a stripped piece of some present cell; missing cells contribute nothing |
| CfrList.BuildCfrTable | src/preprocessing/5_cfr_data.py:12-27 | the table has one row per distinct token, no token twice, and every description empty |
| CfrList.TokensClean | src/preprocessing/5_cfr_data.py:15 | every token is stripped and holds no comma, and the pieces joined with "," give back the cell |
| CfrList.TrailingComma | src/preprocessing/5_cfr_data.py:15 | a cell ending in a comma contributes the empty token "" to the CFR list |
| CfrList.DoubleComma | src/preprocessing/5_cfr_data.py:15 | a cell with two commas in a row contributes the empty token "" |
| CfrList.Tokens | src/run/5_cfr_data.py:16 | the copy of the script splits the same way: one token per piece of the cell |
| DfCleaner.Mask | src/run/3_df_cleaner.py:10 | the mask is true for a row exactly when one of its cells is exactly "Not Found" |
| DfCleaner.SelectSpec | src/run/3_df_cleaner.py:17 | `df[~mask]` keeps exactly the rows whose mask entry is false |
| DfCleaner.Filtered | src/run/3_df_cleaner.py:10-17 | `df[~not_found_mask]`: the rows whose mask entry is false, in order |
| DfCleaner.FilteredSpec | src/run/3_df_cleaner.py:10-17 | no kept row has a "Not Found" cell, every row without one is kept, and every dropped row has one |
| DfCleaner.FilteredAppend | src/run/3_df_cleaner.py:17 | filtering two tables one after the other is filtering each: the kept rows stay in order |
| DfCleaner.FilteredCount | src/run/3_df_cleaner.py:10-20 | the remaining count is the number of rows less the number of flagged rows |
| FacilitySplit.UnitAt | src/preprocessing/6_clean_data.py:8 | a unit suffix `,\s*(Unit\s*\d+)$` tried at a comma gives a unit group that starts after the comma and ends within the text |
| FacilitySplit.MatchFrom | src/preprocessing/6_clean_data.py:8 | the lazy first group ends at or after where it was tried, and a unit group found there is the suffix matched at that end |
| FacilitySplit.SplitFacility | src/preprocessing/6_clean_data.py:8-12 | the two groups of `^(.*?)(?:,\s*(Unit\s*\d+))?$` on one cell, each missing group replaced by "Unknown Facility" or "Unknown Unit" |
| FacilitySplit.CleanTable | src/preprocessing/6_clean_data.py:8-12 | every row keeps its other cells and gains the facility and unit of its "Facility Name" cell, in order |
| FacilitySplit.MatchFromFound | src/preprocessing/6_clean_data.py:8 | the facility is the shortest prefix that the unit suffix or the end of the text follows, and it holds no line break |
| FacilitySplit.MatchFromMissing | src/preprocessing/6_clean_data.py:8 | without a match, a line break comes before any position where the suffix or the end could follow |
| FacilitySplit.NoSuffixWhole | src/preprocessing/6_clean_data.py:8-12 | a one-line value without a unit suffix is the facility as it is, and its unit reads "Unknown Unit" |
| FacilitySplit.BreakUnknown | src/preprocessing/6_clean_data.py:8-12 | a value with an inner line break and no comma before it reads "Unknown Facility" and "Unknown Unit" |
| FacilitySplit.LastUnit | src/preprocessing/6_clean_data.py:8 | `f + ", Unit " + n` (digits `n`, one-line `f`) splits into `f` and `"Unit " + n`, even when `f` ends in another unit suffix |
| LerFields.CleanText | src/preprocessing/ler_cfr_mapping.py:7-14 | `clean_text`: every `(cid:N)` marker becomes a space, then every run of whitespace a single space (its properties are stated by `CleanTextClean` and `CleanTextIdempotent`) |
| LerFields.CleanTextClean | src/preprocessing/ler_cfr_mapping.py:7-14 | the cleaned text holds no `(cid:N)` artifact, no run of two whitespace characters and no newline: every artifact became a space and every whitespace run a single space |
| LerFields.CleanTextIdempotent | src/preprocessing/ler_cfr_mapping.py:7-14 | cleaning an already cleaned text changes nothing |
| LerFields.FacilityUnit | src/preprocessing/ler_cfr_mapping.py:28 | a match found at a position starts with the plant name (case-insensitively) and ends at the first later `Unit <digit>` |
| LerFields.Facility | src/preprocessing/ler_cfr_mapping.py:28-31 | the "Facility Name" field: the leftmost case-insensitive match of the plant's name up to the first `Unit \d`, stripped, or "Not Found" |
| LerFields.FacilityShape | src/preprocessing/ler_cfr_mapping.py:28-31 | the facility is "Not Found" exactly when no position starts a match of `Vogtle Electric Generating Plant.*?Unit \d`; otherwise it is a piece of the text that starts with the plant name and ends in `Unit` and a digit |
| LerFields.LabelledAt | src/preprocessing/ler_cfr_mapping.py:34 | a labelled match starts with its label, and its captured span ends right before one of the two lookahead words |
| LerFields.LabelledValue | src/preprocessing/ler_cfr_mapping.py:34-35 | the Title field, and with their own labels and ending phrases the Abstract (lines 52-57) and Narrative (lines 60-65) fields: the stripped lazy group between the label and the first ending phrase, or "Not Found" |
| LerFields.LabelledFound | src/preprocessing/ler_cfr_mapping.py:33-35 | title, abstract and narrative are found exactly when the label is followed somewhere by one of its two stop words; a found value is stripped text taken from the document, and a missing one is "Not Found" |
| LerFields.LabelledAtLazy | src/preprocessing/ler_cfr_mapping.py:34 | the lazy `(.*?)` stops at the first stop word: no stop word starts inside the captured span |
| LerFields.LerNumber | src/preprocessing/ler_cfr_mapping.py:38-39 | the "LER Number" field: the leftmost `\d{4}-\d{3}-\d{2}`, or "Not Found" |
| LerFields.LerNumberShape | src/preprocessing/ler_cfr_mapping.py:37-39 | the LER number is "Not Found" exactly when no `\d{4}-\d{3}-\d{2}` occurs; otherwise it is eleven characters of that shape taken from the text |
| LerFields.EventDate | src/preprocessing/ler_cfr_mapping.py:42-49 | the "Event Date" field: the three digit groups of the first date after an "Event Date" label, joined with `/`, or "Not Found" |
| LerFields.EventDateAt | src/preprocessing/ler_cfr_mapping.py:42-44 | a date match starts with the label "Event Date" (case-insensitively) and is followed later by two, two and four digits separated by whitespace |
| LerFields.EventDateShape | src/preprocessing/ler_cfr_mapping.py:41-49 | the event date is "Not Found" exactly when no "Event Date" label is followed by such digits; otherwise it reads `MM/DD/YYYY` |
| LerFields.Cfr | src/preprocessing/ler_cfr_mapping.py:68-69 | the "CFR" field: the leftmost `50.xx(a)(y)(iv)(A)`, or "Not Found" |
| LerFields.CfrShape | src/preprocessing/ler_cfr_mapping.py:67-69 | the CFR clause is "Not Found" exactly when `50.\d{2}(a)(\d)(iv)(A)` occurs nowhere; otherwise it is the eighteen characters of the leftmost occurrence |
| LerFields.FieldsOf | src/preprocessing/ler_cfr_mapping.py:24-71 | the dictionary of seven fields read from the cleaned text, plus the file name `process_all_pdfs` adds |
| LerFields.FieldsOneLine | src/preprocessing/ler_cfr_mapping.py:19-69 | because the joined pages are cleaned before matching, none of the seven extracted fields contains a newline |
| LerFields.ExtractFields | src/preprocessing/ler_cfr_mapping.py:16-22 | `extract_fields_from_pdf`: the page texts joined with line breaks and cleaned, then read into fields; no result when a page has no text, since the join raises |
| LerFields.ExtractFieldsSpec | src/preprocessing/ler_cfr_mapping.py:16-22 | a report's fields are produced exactly when every page yields text (joining a page without text raises), and they carry the report's file name |
| LerFields.Extracted | src/preprocessing/ler_cfr_mapping.py:81-85 | one extraction per listed PDF, in listing order |
| LerFields.AllSomeSpec | src/preprocessing/ler_cfr_mapping.py:81-85 | the loop finishes exactly when every extraction succeeds, and then its rows are those extractions in order |
| LerFields.PdfRowsSpec | src/preprocessing/ler_cfr_mapping.py:73-91 | the table is written exactly when every page of every report has text; it then has one row per report, whose file name is the report's |
| LerFields.ProcessAllPdfs | src/preprocessing/ler_cfr_mapping.py:73-91 | the loop over the files whose lower-cased name ends in `.pdf` builds exactly the rows of the per-report extraction, and stops at the first report that raises |
| LerText.FindFrom | src/run/2_text_to_df.py:9-13 | the index found is the first line that contains the keyword in any letter case; `None` means no line does |
| LerText.FindLine | src/run/2_text_to_df.py:9-13 | the loop returns the index `FindFrom` describes |
| LerText.CollectSpec | src/run/2_text_to_df.py:21-24 | the collected lines are a contiguous run of the lines after the start, none of which ends the section, followed by the end of the file or by a line that ends it |
| LerText.CollectLines | src/run/2_text_to_df.py:21-24 | the loop collects exactly that run |
| LerText.CollectNext | src/run/2_text_to_df.py:22-24 | a line that does not contain the stop keyword is appended and the scan goes on |
| LerText.CollectEnds | src/run/2_text_to_df.py:22-23 | a line that contains the stop keyword ends the scan without being appended |
| LerText.ExtractMultiLineSection | src/run/2_text_to_df.py:15-25 | the title section is the joined and stripped run of lines after the first start line, up to a line holding the stop keyword in any case; "Not Found" when there is no start line or the run is empty |
| LerText.ExtractCapsSection | src/run/2_text_to_df.py:27-36 | the abstract is the section after "16. Abstract", ended by a line holding "NRC FORM" in exactly that case; the narrative (lines 49-58) is the same kind of section after "NARRATIVE", ended by "NRC FORM 366A" |
| LerText.Section | src/run/2_text_to_df.py:15-25 | `extract_multi_line_section`: the lines after the first start line up to the first stop line, joined with spaces and stripped, or "Not Found" when there is no start line or nothing between |
| LerText.SectionFound | src/run/2_text_to_df.py:15-25 | when some line mentions the start keyword, the section comes from the first such line: it is the text of the run after it |
| LerText.SectionMissing | src/run/2_text_to_df.py:16-18 | when no line mentions the start keyword, the section is "Not Found" |
| LerText.CfrGroupShape | src/run/2_text_to_df.py:42 | a captured citation reads digits, `.`, digits, `(a)(`, digits, `)(iv)(`, letters and `)` |
| LerText.CfrAtShape | src/run/2_text_to_df.py:42-46 | a match starts at a `/`, skips the whitespace after it, and captures the citation group that follows |
| LerText.Cfr | src/run/2_text_to_df.py:38-47 | `extract_cfr`: the first citation group on or after the "11. This Report is Submitted Pursuant" line, or "Not Found" |
| LerText.ExtractCfr | src/run/2_text_to_df.py:38-47 | the citation is the first line's match from the "11. This Report is Submitted Pursuant" line on; "Not Found" when that line or any match is missing |
| LerText.DateSearchShape | src/run/2_text_to_df.py:93-95 | every match of the date-and-number pattern has digit groups of sizes 2, 2, 4, 4, 3 and 2 |
| LerText.EventDateShape | src/run/2_text_to_df.py:97-98 | the event date made from a match reads `MM-DD-YYYY` |
| LerText.LerNumberShape | src/run/2_text_to_df.py:99 | the report number made from a match reads `NNNN-NNN-NN`, whether or not the text had hyphens |
| LerText.FirstDateFound | src/run/2_text_to_df.py:94-100 | the date used is the first match of the first line that has one |
| LerText.DateOf | src/run/2_text_to_df.py:93-100 | the event date `MM-DD-YYYY` of the first line the date-and-number pattern matches, or "Not Found" |
| LerText.DateOfShape | src/run/2_text_to_df.py:92-100 | the event date is "Not Found" exactly when no line matches, and otherwise reads `MM-DD-YYYY` |
| LerText.CleanLine | src/run/2_text_to_df.py:62 | a cleaned line neither starts nor ends with whitespace |
| LerText.CleanLinePlain | src/run/2_text_to_df.py:62 | a line without the `(cid:9)` marker is only stripped |
| LerText.CleanLines | src/run/2_text_to_df.py:61-62 | one cleaned line per line of the file, in order |
| LerText.Facility | src/run/2_text_to_df.py:76-78 | the facility name: the line after the first "1. Facility Name" line, or "Not Found" when there is none or it is the last line |
| LerText.FacilityFound | src/run/2_text_to_df.py:75-78 | a facility name other than "Not Found" is the line right after the first line mentioning "1. Facility Name" |
| LerText.TxtFileName | src/run/2_text_to_df.py:73 | the row's file name is the `.txt` file's name without its extension, unless only dots precede that extension |
| LerText.ProcessTxtFile | src/run/2_text_to_df.py:60-111 | the row holds the facility, title, event date, abstract, narrative and file name described above; the report number and CFR citation the function also extracts are not among its keys |
| LerText.RowsOf | src/run/2_text_to_df.py:117-120 | one row per text file |
| LerText.ProcessAllTxt | src/run/2_text_to_df.py:113-123 | the loop builds one row per file whose lower-cased name ends in `.txt`, in listing order |
| CfrGraph.Compact | src/run/7_knowledge_graph.py:37-41 | the first loop of `add_cfr_hierarchy` keeps at most one level per `content_i` entry |
| CfrGraph.CompactRaises | src/run/7_knowledge_graph.py:38-41 | reading the entries raises exactly when one of them is truthy but not a string (its `strip` does not exist); the filtering script's `isinstance` test never raises |
| CfrGraph.CompactAll | src/knowledge_graph/7_knowledge_graph.py:54-57 | when every entry is a non-blank string, `cfr_nodes` is the stripped `content_1` to `content_4`, in order |
| CfrGraph.CompactEmpty | src/knowledge_graph/7_knowledge_graph.py:53-57 | `cfr_nodes` is empty, with nothing raised, exactly when no entry names a level and none raises |
| CfrGraph.CompactStops | src/run/7_knowledge_graph.py:38-41 | once one entry raises, the whole call raises |
| CfrGraph.Stripped | src/knowledge_graph/7_knowledge_graph.py:57 | one stripped text per entry |
| CfrGraph.AddLevel | src/knowledge_graph/7_knowledge_graph.py:60-64 | one pass of the second loop only adds to the graph, keeps it well formed and writes only structural relations |
| CfrGraph.AddLevelNodes | src/knowledge_graph/7_knowledge_graph.py:60-61 | a pass merges `label` and `type="CFR"` into the attributes of `{base}_CFR_Level_{k}` and leaves every other node as it was |
| CfrGraph.AddLevelEdges | src/knowledge_graph/7_knowledge_graph.py:62-64 | a pass past the first level adds the `has_subcategory` edge from the level before and changes no other edge |
| CfrGraph.Hierarchy | src/knowledge_graph/7_knowledge_graph.py:59-64 | the second loop only adds to the graph, keeps it well formed and writes only structural relations |
| CfrGraph.HierarchyNodes | src/knowledge_graph/7_knowledge_graph.py:59-61 | level `k` gets the label of the `k`-th kept entry and the type `CFR`, and every node that is not one of the levels is unchanged |
| CfrGraph.HierarchyChain | src/knowledge_graph/7_knowledge_graph.py:62-64 | each level after the first is joined to the one before it by a `has_subcategory` edge |
| CfrGraph.LevelIdInjective | src/knowledge_graph/7_knowledge_graph.py:60 | `{base}_CFR_Level_{k}` names `k`: distinct levels have distinct node ids |
| CfrGraph.LevelBelow | src/knowledge_graph/7_knowledge_graph.py:60-63 | a level's id differs from every lower level's id, so writing a level never overwrites an earlier one |
| CfrGraph.RunEnd | src/knowledge_graph/7_knowledge_graph.py:100 | the greedy `[0-9.\(\)a-zA-Z/]+` run ends at the first character outside the class |
| CfrGraph.FirstMatch | src/knowledge_graph/7_knowledge_graph.py:100 | `re.search` finds the leftmost position where "10 CFR " is followed by a class character, or none |
| CfrGraph.ClauseMatch | src/knowledge_graph/7_knowledge_graph.py:100-102 | `re.search(r"(10 CFR [0-9.\(\)a-zA-Z/]+)", val)` then `group(1).strip()`: the leftmost citation with its longest run, or none |
| CfrGraph.ClauseFound | src/knowledge_graph/7_knowledge_graph.py:100-101 | a citation is found exactly when the pattern matches somewhere in the value |
| CfrGraph.ClauseMatchShape | src/knowledge_graph/7_knowledge_graph.py:100-102 | the citation is the leftmost match: "10 CFR " followed by the longest run of class characters, as it stands in the value |
| CfrGraph.ClauseAt | src/knowledge_graph/7_knowledge_graph.py:100-102 | the citation is the slice of the value from the leftmost match to the end of its run |
| CfrGraph.RunKept | src/knowledge_graph/7_knowledge_graph.py:102 | the matched run neither starts nor ends with whitespace, so `strip()` leaves it unchanged |
| Incidents.Leaf | src/knowledge_graph/7_knowledge_graph.py:77-80 | the leaf id extends the incident id: it is `{incident_id}_CFR_Level_{n}` or `{incident_id}_CFR_Root` |
| Incidents.Connect | src/knowledge_graph/7_knowledge_graph.py:83 | `add_edge` with a structural relation only adds to the graph, creates the edge and keeps the graph well formed |
| Incidents.ConnectEffect | src/knowledge_graph/7_knowledge_graph.py:83 | `add_edge(u, v, relation=rel)` merges the relation into that edge's attributes and changes no node and no other edge |
| Incidents.Attach | src/knowledge_graph/7_knowledge_graph.py:88-89 | `add_node` followed by `add_edge` creates both the node and the edge, only adding to the graph |
| Incidents.AttachEffect | src/knowledge_graph/7_knowledge_graph.py:88-89 | the node's attributes are merged with the new ones, the edge gets its relation, and no other edge changes |
| Incidents.AddClauseNode | src/knowledge_graph/7_knowledge_graph.py:105-107 | the clause block's body creates the clause node with its `conforms_to` and `specifies` edges |
| Incidents.AddClauseNodeEffect | src/knowledge_graph/7_knowledge_graph.py:105-107 | the clause node gets its label and the type `CFR_Clause`; the leaf-to-clause edge gets `specifies` and the incident-to-clause edge `conforms_to` |
| Incidents.ClauseStep | src/knowledge_graph/7_knowledge_graph.py:99-107 | the clause block only adds to the graph and keeps it well formed with structural relations |
| Incidents.ClauseStepEffect | src/knowledge_graph/7_knowledge_graph.py:100-107 | without a citation the block changes nothing; in the two scripts that test `has_node` an existing clause node also changes nothing; otherwise the clause node and its two edges are written |
| Incidents.ClauseStepTwice | src/knowledge_graph/7_knowledge_graph.py:104-107 | the block is idempotent: a citation that repeats within an incident gives one clause node with one edge of each kind |
| Incidents.ClauseStepLinked | src/knowledge_graph/7_knowledge_graph.py:100-107 | after the block the clause node of the citation exists, and in the inference script so do its two edges |
| Incidents.ValueStep | src/knowledge_graph/7_knowledge_graph.py:92-107 | one pass of the value loop only adds to the graph |
| Incidents.Values | src/knowledge_graph/7_knowledge_graph.py:92-107 | the value loop only adds to the graph |
| Incidents.ValuesLinked | src/knowledge_graph/7_knowledge_graph.py:92-107 | after the value loop every value has its node `{incident_id}_{attr_key}_{v_idx}`, its `describes` edge from the attribute node and, for a "Clause" value, its clause node |
| Incidents.AttrStep | src/knowledge_graph/7_knowledge_graph.py:86-109 | one pass of the attribute loop only adds to the graph |
| Incidents.AttrStepLinked | src/knowledge_graph/7_knowledge_graph.py:87-89 | the attribute node and its `has_attribute` edge, written before the values, survive the value loop |
| Incidents.Attributes | src/knowledge_graph/7_knowledge_graph.py:86-109 | the attribute loop only adds to the graph |
| Incidents.AttributesLinked | src/knowledge_graph/7_knowledge_graph.py:86-109 | after the attribute loop every attribute of the item has its node, its edge from the incident and all its values linked |
| Incidents.AttributeLinkedGrows | src/knowledge_graph/7_knowledge_graph.py:71-110 | nothing the incident loop writes is removed later, so what a pass links stays linked |
| Incidents.HierarchyKept | src/knowledge_graph/7_knowledge_graph.py:76 | the hierarchy nodes and edges stay in every graph the pass grows into |
| Incidents.Incident | src/knowledge_graph/7_knowledge_graph.py:71-110 | one pass of the incident loop only adds to the graph and keeps it well formed |
| Incidents.IncidentRaises | src/run/7_knowledge_graph.py:55-61 | a pass raises exactly when reading the item's hierarchy does |
| Incidents.IncidentBuilt | src/knowledge_graph/7_knowledge_graph.py:71-110 | a pass that does not raise links the incident node, its hierarchy chain, its leaf with the `classified_as` edge, and every attribute and value |
| Incidents.IncidentLoop | src/knowledge_graph/7_knowledge_graph.py:71-110 | the incident loop only adds to the graph and keeps it well formed with structural relations |
| Incidents.IncidentLoopRaises | src/run/7_knowledge_graph.py:55-95 | the loop raises exactly when some item's `content_1` to `content_4` holds a truthy non-string, and never in the filtering script |
| Incidents.IncidentLoopStops | src/run/7_knowledge_graph.py:55-61 | the loop stops at the first item that raises |
| Incidents.IncidentLoopLinked | src/knowledge_graph/7_knowledge_graph.py:71-110 | when the loop does not raise, every item is linked in the final graph |
| Incidents.IncidentIdInjective | src/knowledge_graph/7_knowledge_graph.py:72 | `Incident_{idx+1}` names its position: distinct positions give distinct ids |
| Incidents.ValueIdInjective | src/knowledge_graph/7_knowledge_graph.py:93 | a value node id names its incident, its attribute and its position, so no value node is shared between them |
| Incidents.ValueIds | src/knowledge_graph/7_knowledge_graph.py:91-96 | `value_node_ids` has one id per value |
| Incidents.AttrValues | src/knowledge_graph/7_knowledge_graph.py:85-109 | `attribute_values` has one entry per attribute |
| Incidents.AttrTable | src/knowledge_graph/7_knowledge_graph.py:69-110 | `incident_attr_values` has one entry per incident |
| Incidents.AddCfrHierarchy | src/knowledge_graph/7_knowledge_graph.py:52-66 | `add_cfr_hierarchy` returns the levels the first loop reads (or raises), and the graph becomes the hierarchy those levels describe |
| Incidents.AddLevelTo | src/knowledge_graph/7_knowledge_graph.py:60-64 | one pass of the level loop changes the graph as `AddLevel` states |
| Incidents.AddClause | src/knowledge_graph/7_knowledge_graph.py:99-107 | the clause block changes the graph as `ClauseStep` states |
| Incidents.AddValue | src/knowledge_graph/7_knowledge_graph.py:93-107 | one pass of the value loop changes the graph as `ValueStep` states and returns the value node id |
| Incidents.AddValues | src/knowledge_graph/7_knowledge_graph.py:91-107 | the value loop changes the graph as `Values` states and returns `value_node_ids` |
| Incidents.AddAttribute | src/knowledge_graph/7_knowledge_graph.py:87-109 | one pass of the attribute loop changes the graph as `AttrStep` states |
| Incidents.AddAttributes | src/knowledge_graph/7_knowledge_graph.py:85-109 | the attribute loop changes the graph as `Attributes` states and returns `attribute_values` |
| Incidents.AddIncident | src/knowledge_graph/7_knowledge_graph.py:71-110 | one pass of the incident loop fails exactly where the source raises, and otherwise changes the graph as `Incident` states |
| Incidents.AddIncidents | src/knowledge_graph/7_knowledge_graph.py:69-110 | the incident loop fails exactly where the source raises, and otherwise leaves the graph `IncidentLoop` describes and the table `incident_attr_values` |
| Relations.Row | src/knowledge_graph/7_knowledge_graph.py:123-124 | the innermost loop makes one call per target node |
| Relations.Apply | src/knowledge_graph/7_knowledge_graph.py:124 | a sequence of `add_edge` calls only adds to the graph and keeps it well formed |
| Relations.ApplyAppend | src/knowledge_graph/7_knowledge_graph.py:113-124 | making calls `a` then calls `b` is making the calls `a + b` |
| Relations.ApplySnoc | src/knowledge_graph/7_knowledge_graph.py:124 | one more call at the end merges its relation into its edge |
| Relations.ApplyEdges | src/knowledge_graph/7_knowledge_graph.py:124 | after the calls the edges are exactly the old edges plus the pairs the calls name |
| Relations.ApplyNodes | src/knowledge_graph/7_knowledge_graph.py:124 | the calls never change a node's attributes |
| Relations.ApplyRelations | src/knowledge_graph/7_knowledge_graph.py:124 | every edge's relation stays within a set that contains each call's relation |
| Relations.ApplyLabel | src/knowledge_graph/7_knowledge_graph.py:124 | when every call on a pair of nodes carries the same relation, that edge ends up with it |
| Relations.PairWritesIn | src/knowledge_graph/7_knowledge_graph.py:122-124 | the two innermost loops make exactly the calls from a node of the source attribute to a node of the target attribute, with the mapped relation |
| Relations.TargetWritesIn | src/knowledge_graph/7_knowledge_graph.py:116-124 | the target loop makes exactly the calls towards the other attributes that `RELATION_MAP` relates to the source attribute |
| Relations.TargetHitLast | src/knowledge_graph/7_knowledge_graph.py:116-124 | a call comes from the target loop when it comes from an earlier target or from the last one |
| Relations.SourceWritesIn | src/knowledge_graph/7_knowledge_graph.py:115-124 | the source loop makes exactly the calls of its source attributes |
| Relations.SourceHitLast | src/knowledge_graph/7_knowledge_graph.py:115-124 | a call comes from the source loop when it comes from an earlier source or from the last one |
| Relations.AllWritesIn | src/knowledge_graph/7_knowledge_graph.py:113-124 | the relation loop makes exactly the prescribed calls: value node to value node of one incident, for every ordered pair of distinct attribute names in `RELATION_MAP` |
| Relations.PrescribedLast | src/knowledge_graph/7_knowledge_graph.py:113-124 | a call is prescribed when an earlier incident prescribes it or the last one does |
| Relations.PrescribedKeys | src/knowledge_graph/7_knowledge_graph.py:113-124 | every prescribed call comes from a value node of one attribute and goes to a value node of another attribute of the same incident |
| Relations.PrescribedUnique | src/knowledge_graph/7_knowledge_graph.py:119-124 | when value nodes name their attribute, two prescribed calls on the same pair of nodes carry the same relation, so the order of the calls does not matter |
| Relations.MappedRelations | src/knowledge_graph/7_knowledge_graph.py:15-30 | the set holds every relation `RELATION_MAP` can give |
| Relations.RelationPhase | src/knowledge_graph/7_knowledge_graph.py:112-124 | after the relation loop every prescribed pair has its mapped relation, the only new edges are prescribed pairs, no node changes, and every relation is structural or mapped |
| Relations.AttrTableUnambiguous | src/knowledge_graph/7_knowledge_graph.py:93 | the value nodes the incident loop records never stand under two attribute names |
| Relations.WritesWithinIncident | src/knowledge_graph/7_knowledge_graph.py:113-124 | the relation loop joins value nodes of one incident only, under attribute names the map relates, with the mapped relation |
| Relations.LinkRow | src/knowledge_graph/7_knowledge_graph.py:123-124 | the innermost loop makes the calls `Row` lists |
| Relations.LinkAll | src/knowledge_graph/7_knowledge_graph.py:122-124 | the two innermost loops make the calls from every source node to every target node |
| Relations.RelateSource | src/knowledge_graph/7_knowledge_graph.py:116-124 | the target loop makes the calls `TargetWrites` lists |
| Relations.RelateIncident | src/knowledge_graph/7_knowledge_graph.py:114-124 | the source loop of one incident makes the calls `SourceWrites` lists |
| Relations.RelateIncidents | src/knowledge_graph/7_knowledge_graph.py:113-124 | the relation loop makes all the prescribed calls, in order |
| Scripts.Filtered | src/knowledge_graph/7_knowledge_graph.py:36-43 | `filtered_data` is no longer than the data |
| Scripts.FilteredIn | src/knowledge_graph/7_knowledge_graph.py:38-43 | an item is in `filtered_data` exactly when it is in the data and all of `content_1` to `content_4` are non-blank strings |
| Scripts.FilteredKept | src/knowledge_graph/7_knowledge_graph.py:40-41 | every item of `filtered_data` passes the filter |
| Scripts.FilteredTwice | src/knowledge_graph/7_knowledge_graph.py:38-43 | filtering the filtered data changes nothing |
| Scripts.FilterItems | src/knowledge_graph/7_knowledge_graph.py:36-45 | the loop builds `filtered_data`, and `removed_count` plus the kept items make up `total_count` |
| Scripts.KeptLevels | src/knowledge_graph/7_knowledge_graph.py:76-78 | a kept item has exactly four levels, its stripped entries, so its leaf is `{incident_id}_CFR_Level_4` |
| Scripts.FilteringGraph | src/knowledge_graph/7_knowledge_graph.py:49-110 | the filtering script's incident loop never raises, and each kept item's hierarchy is its four stripped entries |
| Scripts.BuildFiltering | src/knowledge_graph/7_knowledge_graph.py:36-124 | the filtering script leaves the graph of the incident loop over the kept items followed by the relation loop, and counts the removed items |
| Scripts.BuildPlain | src/run/7_knowledge_graph.py:34-111 | the plain script fails exactly where its incident loop raises, and otherwise leaves the incident loop's graph followed by the relation loop |
| Scripts.BuildInference | src/run/8_inference.py:13-61 | the inference script fails exactly where its incident loop raises, and otherwise leaves the incident loop's graph, with no relation loop |
| Scripts.ScriptGraph | src/run/7_knowledge_graph.py:34-111 | a script that does not raise leaves a well-formed graph whose relations are structural or mapped, in which every item is linked and every prescribed pair has its mapped relation |
| Scripts.InferenceGraph | src/run/8_inference.py:31-61 | the inference graph is well formed and carries structural relations only |
| Scripts.Matched | src/run/8_inference.py:80-93 | `matched_clauses` holds at most one label per node |
| Scripts.MatchedIn | src/run/8_inference.py:77-93 | a label is matched exactly when the lower-cased text holds both keywords and some `CFR_Clause` node has that label and it contains "50.73(a)(2)(iv)(A)" |
| Scripts.MatchedNone | src/run/8_inference.py:92 | a text lacking a keyword matches nothing, whatever the graph |
| Scripts.MatchedWanted | src/run/8_inference.py:89 | every matched label contains "50.73(a)(2)(iv)(A)" |
| Scripts.MatchedClauses | src/run/8_inference.py:78-93 | the scan over the nodes, in the order they were added, builds `Matched` |
| GraphScript.BuildGraph | src/knowledge_graph/8_kg.py:130-162 | the script clears the database, writes the CFR nodes, ingests every record until one raises and then, only if none raised, runs the linking step |
| GraphScript.BuiltOk | src/knowledge_graph/8_kg.py:138-141 | the script runs to the end exactly when every record is ingested without raising |
| GraphScript.IngestReady | src/knowledge_graph/8_kg.py:114-116 | once every record is ingested, each incident and each item of the linked attribute is a node, so every MATCH of the linking step finds its four nodes |
| GraphScript.BuiltLinks | src/knowledge_graph/8_kg.py:143-162 | a completed run keeps the nodes Step 3 left and adds to Step 3's relationships exactly one linking relationship per pair of records `i < j` whose similarity reaches 0.8 |
| IncidentIngest.CfrNodesAdd | src/knowledge_graph/8_kg.py:33-41 | writing one more citation adds its CFR node with `upper` and `lower` and changes no other CFR node |
| IncidentIngest.CfrNodesStep | src/knowledge_graph/8_kg.py:135-136 | one more pass of Step 2 is one more node MERGE with its SET |
| IncidentIngest.CfrNodesNone | src/knowledge_graph/8_kg.py:134-136 | before Step 2 writes anything, the nodes are as they were |
| IncidentIngest.InsertCfrNodes | src/knowledge_graph/8_kg.py:133-136 | Step 2 gives every citation of `cfr_dict` its CFR node carrying its `content_3` as `upper` and `content_4` as `lower`, in whatever order the dictionary yields them, and touches no relationship |
| IncidentIngest.IngestRecord | src/knowledge_graph/8_kg.py:43-99 | `insert_nodes_and_relationships`: the writes of one record (Incident, attribute items, facility, known clauses) up to the first missing entry, and whether one was missing |
| IncidentIngest.EdgeMergeSetsNothing | src/knowledge_graph/8_kg.py:67 | a relationship MERGE SETs no node property |
| IncidentIngest.ItemOpsMergeOnly | src/knowledge_graph/8_kg.py:62-70 | the writes for the items of an attribute are MERGEs only |
| IncidentIngest.RecordNodeKeys | src/knowledge_graph/8_kg.py:43-99 | a complete record writes exactly the nodes of `RecordNodes`: the incident, each attribute item, the facility and each clause found in `cfr_dict` |
| IncidentIngest.RecordEdgeKeys | src/knowledge_graph/8_kg.py:43-99 | a complete record writes exactly the relationships of `RecordEdges`: one per attribute item, the facility and each known clause |
| IncidentIngest.RecordProps | src/knowledge_graph/8_kg.py:46-54 | a record SETs its title and date on its Incident node and no property on any node other than that one and its clause nodes |
| IncidentIngest.RecordFrame | src/knowledge_graph/8_kg.py:43-99 | nodes other than the incident and its clause nodes get no property written |
| IncidentIngest.OverlayFrame | src/knowledge_graph/8_kg.py:49 | SET only touches the nodes it names |
| IncidentIngest.IngestMergeOnly | src/knowledge_graph/8_kg.py:43-99 | a record's transaction runs MERGEs only, whether or not it raises |
| IncidentIngest.IngestFailure | src/knowledge_graph/8_kg.py:43-99 | a transaction raises exactly when the record lacks its title, event date or facility fields, or (in the scripts that index them directly) its Task list or clause; a transaction that raises leaves the database unchanged |
| IncidentIngest.IngestCommits | src/knowledge_graph/8_kg.py:141 | a record that raises nothing commits exactly its full list of writes |
| IncidentIngest.RecordScript | src/knowledge_graph/8_kg.py:43-99 | a record's writes act as one overlay of node properties and one of relationship properties |
| IncidentIngest.IngestEffect | src/knowledge_graph/8_kg.py:43-99 | an ingested record adds exactly `RecordNodes` and `RecordEdges`, creates nothing with CREATE, merges its title and date into its Incident node and leaves every other existing non-clause node unchanged |
| IncidentIngest.IngestGrows | src/knowledge_graph/8_kg.py:141 | an ingested record adds its nodes and removes none |
| IncidentIngest.IngestIdempotent | src/knowledge_graph/8_kg.py:43-99 | ingesting the same record a second time changes nothing |
| IncidentIngest.IngestAll | src/knowledge_graph/8_kg.py:138-141 | Step 3: the database after one write transaction per record in order, stopping at the first that raises, and whether none did |
| IncidentIngest.IngestAllScript | src/knowledge_graph/8_kg.py:138-141 | Step 3 is one MERGE script, the committed writes run from its starting state, and it succeeds exactly when every record goes in |
| IncidentIngest.IngestAllStopped | src/knowledge_graph/8_kg.py:140-141 | once a record raises, the later records are not ingested |
| IncidentIngest.IngestAllLast | src/knowledge_graph/8_kg.py:140-141 | a completed Step 3 is the completed Step 3 over all records but the last, followed by the last record |
| IncidentIngest.IngestedNodesHas | src/knowledge_graph/8_kg.py:140-141 | each complete record's nodes are among the nodes Step 3 writes |
| IncidentIngest.IngestAllNodes | src/knowledge_graph/8_kg.py:138-141 | after a completed Step 3 the nodes are the old ones plus every record's nodes |
| IncidentIngest.IngestAllIdempotent | src/knowledge_graph/8_kg.py:138-141 | running Step 3 a second time over the same records changes nothing |
| IncidentIngest.IngestRecords | src/knowledge_graph/8_kg.py:138-141 | the loop of write transactions leaves the database Step 3 describes and reports whether every record went in |
| HsiGraph.DerivedRule | src/knowledge_graph/8_kg_HSI.py:70-74 | for an attribute name without spaces, the node label is the name itself and the relationship is `HAS_` with the name upper-cased |
| HsiGraph.CorrectiveActionsRel | src/knowledge_graph/8_kg_HSI.py:73 | "Corrective Actions" becomes the relationship `HAS_CORRECTIVE_ACTIONS` |
| HsiGraph.HsiDerivedRules | src/knowledge_graph/8_kg_HSI.py:66-74 | from the third rule on, each label is the attribute name without its spaces and each relationship is derived from the name as the f-string does |
| HsiGraph.HsiIngestFails | src/knowledge_graph/8_kg_HSI.py:43-96 | an HSI record fails to go in exactly when it lacks its title, event date, facility fields, its "Task" attribute or its clause; then nothing is written |
| HsiGraph.BuildHsiGraph | src/knowledge_graph/8_kg_HSI.py:132-165 | the whole HSI script, Steps 1 to 4 |
| HsiGraph.HsiPairs | src/knowledge_graph/8_kg_HSI.py:145-165 | Step 4 links each incident to each later one whose HSI-Issue similarity reaches 0.8 |
| HsiGraph.HsiCovers | src/knowledge_graph/8_kg_HSI.py:58-64 | Step 3 writes the `HSIIssue` nodes Step 4 matches |
| HsiGraph.HsiLinks | src/knowledge_graph/8_kg_HSI.py:145-165 | a completed run adds no node in Step 4 and exactly one `SIMILAR_HSI` relationship per linked pair |
| HsiGraph.HsiLastWrite | src/knowledge_graph/8_kg_HSI.py:112-130 | on the relationship of two linked records the score survives, and `hsi1`/`hsi2` are the last HSI issues of each record, since later writes overwrite earlier ones |
| TaskGraph.TaskLabels | src/knowledge_graph/8_kg.py:57-65 | each node label is the attribute name without its spaces |
| IncidentIngest.CorrectiveActionsLabel | src/knowledge_graph/8_kg.py:65 | "Corrective Actions" becomes the node label "CorrectiveActions" |
| TaskGraph.SpaceFree | src/knowledge_graph/8_kg.py:65 | removing spaces from a name without spaces changes nothing |
| TaskGraph.TaskIngestFails | src/knowledge_graph/8_kg.py:43-99 | a record fails to go in exactly when it lacks its title, event date or facility fields; the attributes and the clause are read with defaults |
| TaskGraph.TaskLinkKeys | src/knowledge_graph/8_kg.py:117-123 | every `SIMILAR_TASK` relationship carries the four scores and `task1`, `task2` |
| TaskGraph.BuildTaskGraph | src/knowledge_graph/8_kg.py:130-162 | the whole Task script, Steps 1 to 4 |
| TaskGraph.TaskPairs | src/knowledge_graph/8_kg.py:143-162 | Step 4 links each incident to each later one whose Task similarity reaches 0.8 |
| TaskGraph.TaskCovers | src/knowledge_graph/8_kg.py:57-70 | Step 3 writes the `Task` nodes Step 4 matches |
| TaskGraph.TaskLinks | src/knowledge_graph/8_kg.py:143-162 | a completed run adds no node in Step 4 and exactly one `SIMILAR_TASK` relationship per linked pair |
| TaskGraph.TaskLastWrite | src/knowledge_graph/8_kg.py:111-128 | on the relationship of two linked records the four scores survive, and `task1`/`task2` are the last tasks of each record |
| Linking.LinkAll | src/knowledge_graph/8_kg.py:144-162 | Step 4: the guarded MERGE of every item pair of every later record whose gating score reaches 0.8, in loop order |
| Linking.ScoreProps | src/knowledge_graph/8_kg.py:151-156 | the scores other than the gate are written under their own property names |
| Linking.LinkProps | src/knowledge_graph/8_kg.py:118-123 | the relationship query SETs exactly the linker's property names |
| Linking.LinkPropsItems | src/knowledge_graph/8_kg.py:118-123 | the link SETs the gating score and the two items under their own properties |
| Linking.GateNeedsItems | src/knowledge_graph/8_kg.py:103-109 | a pair reaches the threshold only when both records have a non-empty text for the attribute, so both have at least one item |
| Linking.Link | src/knowledge_graph/8_kg.py:144-162 | Step 4 runs the writes `LinkAll` lists |
| Linking.LinkRow | src/knowledge_graph/8_kg.py:146-162 | the body of the outer loop runs the writes for every item of record `i` |
| Linking.LinkSweep | src/knowledge_graph/8_kg.py:148-162 | the second loop runs the writes for item `t1` against every later record |
| Linking.LinkPair | src/knowledge_graph/8_kg.py:150-162 | the innermost loop computes the scores for each pair and writes the relationship when the gate reaches 0.8 |
| Linking.LinkAllIff | src/knowledge_graph/8_kg.py:144-162 | Step 4 writes a guarded MERGE exactly for the items of records `i < j` whose similarity reaches the threshold, never from a later record to an earlier one |
| Linking.LinkAllEdges | src/knowledge_graph/8_kg.py:144-162 | the relationships written are exactly the linked pairs |
| Linking.LinkAllGuarded | src/knowledge_graph/8_kg.py:113-123 | every write of Step 4 is a MATCH-guarded MERGE that SETs the same properties |
| Linking.LinkAllEffective | src/knowledge_graph/8_kg.py:115-116 | once the incidents and their items are in the database, every MATCH of Step 4 succeeds |
| Linking.LinkKeepsNodes | src/knowledge_graph/8_kg.py:113-123 | Step 4 adds and changes no node and uses no CREATE |
| Linking.LinkEdgesEffect | src/knowledge_graph/8_kg.py:144-162 | run from a database holding the incidents and their items, Step 4 adds exactly the linking relationships and leaves every other relationship as it was |
| Linking.LinkIdempotent | src/knowledge_graph/8_kg.py:144-162 | running Step 4 a second time changes nothing |
| Linking.PairWrites | src/knowledge_graph/8_kg.py:150-162 | the innermost loop touches only the relationship between its two records |
| Linking.PairLast | src/knowledge_graph/8_kg.py:150-162 | after the innermost loop the relationship carries the link for `t1` and the last item of the later record |
| Linking.SweepAt | src/knowledge_graph/8_kg.py:148-162 | sweeping an item over the later records leaves on each relationship what the pass over that record SETs |
| Linking.SweepOthersMiss | src/knowledge_graph/8_kg.py:148-162 | the passes over other records miss that relationship |
| Linking.RowLast | src/knowledge_graph/8_kg.py:146-162 | after record `i`'s row, the relationship to record `j` carries the link for the last items of both |
| Linking.RowMisses | src/knowledge_graph/8_kg.py:145-162 | the rows of other records write nothing on a relationship from record `i` |
| Linking.LinkLastWrite | src/knowledge_graph/8_kg.py:143-162 | when file names are distinct, each linking relationship ends up with the pair's scores and the LAST item of each record |
| PropertyGraph.Overlay | src/knowledge_graph/8_kg.py:37-38 | MERGE followed by SET: every key of either map is present, and each key's properties are the old ones updated by the new ones |
| PropertyGraph.OverlayOne | src/knowledge_graph/8_kg.py:37-38 | MERGE of one node with its SET updates that one entry |
| PropertyGraph.OverlayAdd | src/knowledge_graph/8_kg.py:135-136 | one more entry in a batch of MERGEs is one more MERGE after the batch |
| PropertyGraph.OverlayAssoc | src/knowledge_graph/8_kg.py:37-38 | two batches of MERGEs in a row are one batch of their combined writes |
| PropertyGraph.OverlayTwice | src/knowledge_graph/8_kg.py:37-38 | repeating a batch of MERGEs with the same SETs changes nothing |
| PropertyGraph.OverlayOutside | src/knowledge_graph/8_kg.py:37-38 | keys the batch does not name keep their properties |
| PropertyGraph.TouchKeys | src/knowledge_graph/8_kg.py:67 | a relationship MERGE keeps every node and creates missing endpoints |
| PropertyGraph.TouchIsOverlay | src/knowledge_graph/8_kg.py:66-67 | creating the endpoints is a node MERGE of both without properties |
| PropertyGraph.ApplyKeepsWellFormed | src/knowledge_graph/8_kg.py:63-70 | no write leaves a dangling relationship, and no write removes a node or a relationship |
| PropertyGraph.ApplyAllKeepsWellFormed | src/knowledge_graph/8_kg.py:43-99 | a sequence of writes keeps the database well formed and removes nothing |
| PropertyGraph.ApplyAllAppend | src/knowledge_graph/8_kg.py:43-99 | running two scripts in a row is running their concatenation |
| PropertyGraph.ApplyIsOverlay | src/knowledge_graph/8_kg.py:113-123 | a MERGE, or a MATCH-guarded MERGE whose MATCH succeeds, overlays its node and relationship writes |
| PropertyGraph.ScriptEffect | src/knowledge_graph/8_kg.py:43-99 | a script of effective MERGEs writes the same thing whatever state it starts from |
| PropertyGraph.MergeScriptIdempotent | src/knowledge_graph/8_kg.py:43-99 | running a MERGE-only script a second time changes nothing |
| PropertyGraph.EffectiveIdempotent | src/knowledge_graph/8_kg.py:113-123 | running a second time any script whose writes all take effect changes nothing |
| PropertyGraph.ScriptEdges | src/knowledge_graph/8_kg.py:113-123 | an effective script adds exactly the relationships it writes and leaves every other one as it was |
| PropertyGraph.EdgeKeysOf | src/knowledge_graph/8_kg.py:117 | the relationships a script writes are those its relationship MERGEs name |
| PropertyGraph.EdgePropsAppend | src/knowledge_graph/8_kg.py:117-123 | what two scripts SET on a relationship is the first's properties updated by the second's |
| PropertyGraph.WrittenAppend | src/knowledge_graph/8_kg.py:117-123 | two scripts run in a row write what the first writes, overwritten by what the second writes |
| PropertyGraph.EdgeUntouched | src/knowledge_graph/8_kg.py:117 | a relationship no write names gets nothing written |
| PropertyGraph.EdgeWriteKeys | src/knowledge_graph/8_kg.py:118-123 | a relationship whose every write SETs at most some properties ends up with at most those |
| PropertyGraph.NodeUntouched | src/knowledge_graph/8_kg.py:65-67 | a node none of whose writes SETs a property gets no property written |
| PropertyGraph.GuardedKeepsNodes | src/knowledge_graph/8_kg.py:115-117 | MATCH-guarded writes never add or change a node and never CREATE |
| PropertyGraph.LastWriteWins | src/knowledge_graph/8_kg.py:118-123 | a later SET of every property replaces what earlier SETs wrote on that relationship |
| PropertyGraph.UnionCovered | src/knowledge_graph/8_kg.py:118-123 | properties SET later replace any earlier value of the same property |
| PropertyGraph.LoopNext | src/knowledge_graph/8_kg.py:145 | one more iteration appends the writes of its body |
| PropertyGraph.LoopSplit | src/knowledge_graph/8_kg.py:148 | a loop over a range is the loop over its first part followed by the loop over the rest |
| PropertyGraph.LoopOnly | src/knowledge_graph/8_kg.py:145 | every write of a loop comes from one of its iterations |
| PropertyGraph.LoopHas | src/knowledge_graph/8_kg.py:145 | every write of every iteration is a write of the loop |
| PropertyGraph.LoopFocus | src/knowledge_graph/8_kg.py:148-162 | when only one iteration touches a relationship, the loop leaves there what that iteration SETs |
| PropertyGraph.MissedAround | src/knowledge_graph/8_kg.py:148-162 | writes before and after that miss a relationship change nothing on it |
| PropertyGraph.LaterCovers | src/knowledge_graph/8_kg.py:118-123 | later writes that SET at least what earlier writes SET leave their own values |
| PropertyGraph.LoopLast | src/knowledge_graph/8_kg.py:150-162 | when the last iteration SETs every property earlier ones SET on a relationship, the loop leaves there what the last iteration SETs |
| PropertyGraph.GraphStore.constructor | src/knowledge_graph/8_kg.py:14 | a fresh connection to an empty database |
| PropertyGraph.GraphStore.DeleteAll | src/knowledge_graph/8_kg.py:27-31 | `MATCH (n) DETACH DELETE n` leaves no node, relationship or created relationship |
| PropertyGraph.GraphStore.MergeNode | src/knowledge_graph/8_kg.py:37-38 | a node MERGE with SET updates that node's properties and nothing else |
| PropertyGraph.GraphStore.MergeEdge | src/knowledge_graph/8_kg.py:66-67 | a relationship MERGE creates missing endpoints and updates that relationship's properties |
| PropertyGraph.GraphStore.MatchMergeEdge | src/knowledge_graph/8_kg.py:115-123 | a MATCH-guarded MERGE writes the relationship only when every matched node exists, and never touches nodes |
| PropertyGraph.GraphStore.CreateEdge | src/human_error/2_new_kg.py:39 | a relationship CREATE adds one more copy of the relationship each time |
| PropertyGraph.GraphStore.Run | src/knowledge_graph/8_kg.py:35-41 | `tx.run` of one query carries out its write |
| PropertyGraph.GraphStore.RunAll | src/knowledge_graph/8_kg.py:43-99 | a transaction function's queries run one after the other |
| PropertyGraph.GraphStore.Restore | src/knowledge_graph/8_kg.py:141 | a rolled-back transaction returns the database to its state before the transaction |
| PropertyGraph.GraphStore.Transact | src/knowledge_graph/8_kg.py:141 | `session.write_transaction` commits the writes of a transaction that returns and rolls back one that raises |
| DiGraphs.WithNode | src/knowledge_graph/7_knowledge_graph.py:73 | `add_node` adds the node if missing (at the end of the node order), merges the new attributes into its dictionary and changes nothing else |
| DiGraphs.WithEdge | src/knowledge_graph/7_knowledge_graph.py:83 | `add_edge` adds missing endpoints without attributes, merges the new attributes into the edge's dictionary and changes no other node or edge attributes |
| DiGraphs.Touch | src/knowledge_graph/7_knowledge_graph.py:124 | an endpoint missing from the graph is added without attributes, and every present node keeps its attributes |
| DiGraphs.AddedValid | src/knowledge_graph/7_knowledge_graph.py:73 | adding a node keeps the graph well formed |
| DiGraphs.EdgeValid | src/knowledge_graph/7_knowledge_graph.py:83 | touching both endpoints and then setting the edge keeps the graph well formed |
| DiGraphs.SetEdgeValid | src/knowledge_graph/7_knowledge_graph.py:83 | setting an edge between two present nodes keeps the graph well formed |
| DiGraphs.TouchValid | src/knowledge_graph/7_knowledge_graph.py:124 | adding a missing endpoint keeps the graph well formed |
| DiGraphs.UpdateTwice | src/knowledge_graph/7_knowledge_graph.py:73 | updating an attribute dictionary twice with the same entries is updating it once |
| DiGraphs.WithNodeTwice | src/knowledge_graph/7_knowledge_graph.py:73 | adding a node a second time with the same attributes changes nothing |
| DiGraphs.WithEdgeTwice | src/knowledge_graph/7_knowledge_graph.py:83 | adding an edge a second time with the same attributes changes nothing |
| DiGraphs.WithEdgePresent | src/knowledge_graph/7_knowledge_graph.py:124 | adding an edge that is present with attributes it already has changes nothing |
| DiGraphs.WithNodePresent | src/knowledge_graph/7_knowledge_graph.py:73 | adding a node that is present with attributes it already has changes nothing |
| DiGraphs.WithEdgeRelation | src/knowledge_graph/7_knowledge_graph.py:124 | an edge added with a relation from a set keeps every relation of the graph in that set |
| DiGraphs.DiGraph.constructor | src/knowledge_graph/7_knowledge_graph.py:50 | `nx.DiGraph()` is the empty graph |
| DiGraphs.DiGraph.AddNode | src/knowledge_graph/7_knowledge_graph.py:73 | `add_node` changes the graph as `WithNode` states |
| DiGraphs.DiGraph.AddEdge | src/knowledge_graph/7_knowledge_graph.py:83 | `add_edge` changes the graph as `WithEdge` states |
| DiGraphs.DiGraph.HasNode | src/knowledge_graph/7_knowledge_graph.py:104 | `has_node` is true exactly for the nodes of the graph |
| Records.AttributeSimilarity | src/knowledge_graph/8_kg.py:101-109 | `calculate_similarity`: the oracle on the two space-joined value lists when both are non-empty, otherwise 0.0 |
| Records.AttributeSimilarityCases | src/knowledge_graph/8_kg.py:101-109 | the score is 0.0 when either record lacks the attribute or its joined text is empty, and otherwise what the embedding model says about the two joined texts |
| HumanErrorGraph.InsertNested | src/human_error/2_new_kg.py:34-71 | the nested loops run the writes `NestOps` lists |
| HumanErrorGraph.InsertItem | src/human_error/2_new_kg.py:34-71 | one pass of a level's loop runs the writes for its value, then the loops nested in it |
| HumanErrorGraph.InsertRecord | src/human_error/2_new_kg.py:22-71 | the body of the record loop runs the record's writes |
| HumanErrorGraph.BuildAll | src/human_error/2_new_kg.py:17-71 | the database after the record loop, stopping at the first record with missing metadata, and whether none had any |
| HumanErrorGraph.BuildHumanErrorGraph | src/human_error/2_new_kg.py:17-71 | the record loop leaves the database `BuildAll` describes, and stops at the first record whose metadata lookups raise |
| HumanErrorGraph.BuildAllStopped | src/human_error/2_new_kg.py:17-31 | once a record raises, the later records are not written |
| HumanErrorGraph.BuildAllOk | src/human_error/2_new_kg.py:17-31 | the record loop gets through every record exactly when every record has its title, event date, facility name and unit |
| HumanErrorGraph.NestShape | src/human_error/2_new_kg.py:34-71 | the nested loops only merge nodes of their levels' labels and only create relationships into such nodes |
| HumanErrorGraph.NestMisses | src/human_error/2_new_kg.py:34-71 | a write into a node outside the nest's labels is not among its writes |
| HumanErrorGraph.WritesOnly | src/human_error/2_new_kg.py:34-71 | a write no op produces is counted zero times |
| HumanErrorGraph.ApplyAllCreated | src/human_error/2_new_kg.py:39 | each `graph.create` of a relationship adds one more copy of it |
| HumanErrorGraph.Deeper | src/human_error/2_new_kg.py:36-67 | the five labels are distinct, so a deeper level's label differs from the first level's |
| HumanErrorGraph.BodySplit | src/human_error/2_new_kg.py:36-47 | one pass writes the value's node, its relationship from the enclosing loop's node, the one from the incident, and what the loops nested in it write |
| HumanErrorGraph.FanoutPrefix | src/human_error/2_new_kg.py:34-65 | the number of times a loop body runs is the product of the lengths of the enclosing lists |
| HumanErrorGraph.NestCount | src/human_error/2_new_kg.py:34-71 | each value of the `j`-th level is merged, and its relationship from the incident created, once per run of the enclosing loops and per occurrence in its list |
| HumanErrorGraph.LoopCountTop | src/human_error/2_new_kg.py:34-39 | the loop of the first level merges each of its values once per occurrence |
| HumanErrorGraph.BodyCountDeep | src/human_error/2_new_kg.py:41-71 | each pass of the first level's loop writes a deeper value as often as the loops nested in it do |
| HumanErrorGraph.NestParent | src/human_error/2_new_kg.py:46 | relationships into a first-level node come from the enclosing loop's node, once per occurrence of the value |
| HumanErrorGraph.NestChain | src/human_error/2_new_kg.py:46-70 | each chain relationship from a value of one level to a value of the next is created once per run of the enclosing loops and per pair of occurrences |
| HumanErrorGraph.BodyChainTop | src/human_error/2_new_kg.py:41-46 | the first level's loop creates a relationship from each value to each value of the second level once per pair of occurrences |
| HumanErrorGraph.BodyChainDeep | src/human_error/2_new_kg.py:49-70 | each pass of the first level's loop creates a deeper chain relationship as often as the loops nested in it do |
| HumanErrorGraph.RecordWritesSplit | src/human_error/2_new_kg.py:22-71 | a record's writes are its Incident MERGE and the nested loops |
| HumanErrorGraph.RecordValueCount | src/human_error/2_new_kg.py:34-71 | for a complete record, each value of the `j`-th attribute is merged, and its `HAS_...` relationship created, as many times as the enclosing lists' lengths multiplied by its own count |
| HumanErrorGraph.RecordChainCount | src/human_error/2_new_kg.py:46-70 | the chain relationship from value `y` of one attribute to `x` of the next is created the product of the enclosing lists' lengths and both counts times |
| HumanErrorGraph.NoTaskNoNest | src/human_error/2_new_kg.py:34 | a record without tasks writes only its Incident node, since every other loop is nested in the task loop |
| HumanErrorGraph.SameMerges | src/human_error/2_new_kg.py:37 | when every MERGE of a node SETs the same properties, the node ends up with its old properties updated by them if it is merged at all |
| HumanErrorGraph.ApplyProps | src/human_error/2_new_kg.py:37 | a write changes a node's properties only if it merges that node |
| HumanErrorGraph.ValueMerges | src/human_error/2_new_kg.py:36-37 | every MERGE of a value's node SETs the value as its description |
| HumanErrorGraph.RecordValueProps | src/human_error/2_new_kg.py:34-68 | after a complete record, a value's node carries it as its description exactly when every enclosing list is non-empty and the value is listed |
| HumanErrorGraph.RecordIncident | src/human_error/2_new_kg.py:23-31 | after a complete record, its Incident node carries the file name, title, event date, facility and unit over what it had before |
| HumanErrorGraph.RerunDuplicates | src/human_error/2_new_kg.py:39-71 | running the script again on the same record creates every relationship again |
| HumanErrorGraph.RerunChanges | src/human_error/2_new_kg.py:39 | so the script is not idempotent: a record with a task changes the database every time it runs |
| Restruct.RunQuery | src/knowledge_graph/9_restruct.py:8-28 | one of the MATCH/MERGE queries: every relationship it derives from the incidents' paths is added where it is missing |
| Restruct.RunQueryOn | src/knowledge_graph/9_restruct.py:32 | `graph.run(query)` changes the database as `RunQuery` states |
| Restruct.RestructureGraphRelationships | src/knowledge_graph/9_restruct.py:3-32 | the queries run one after the other, in list order |
| Restruct.QueriesIndependent | src/knowledge_graph/9_restruct.py:8-29 | the relationship types the queries read start with `R` or `H` and those they write with other, pairwise distinct letters, so no query reads what another writes (for the written and the corrected list alike) |
| Restruct.InitialsIndependent | src/knowledge_graph/9_restruct.py:8-29 | queries whose read and written types are told apart by their initials are independent |
| Restruct.ExtendEffect | src/knowledge_graph/9_restruct.py:12 | MERGEing relationships adds exactly the missing ones, each without properties, and changes no node, no created relationship and no existing relationship |
| Restruct.ExtendTwice | src/knowledge_graph/9_restruct.py:12 | two MERGE batches in a row are one batch of both |
| Restruct.ExtendNothing | src/knowledge_graph/9_restruct.py:12 | MERGEing relationships that already exist changes nothing |
| Restruct.RunQueryEffect | src/knowledge_graph/9_restruct.py:10-13 | a query adds exactly the relationships it asks for that are missing, each of its own type, and keeps everything else |
| Restruct.DerivedIgnores | src/knowledge_graph/9_restruct.py:11 | relationships of types a query does not read leave what it asks for unchanged |
| Restruct.RunQueryIdempotent | src/knowledge_graph/9_restruct.py:10-13 | running a query whose written type differs from its read types a second time changes nothing |
| Restruct.IndependentPrefix | src/knowledge_graph/9_restruct.py:8-29 | any first part of an independent list is independent |
| Restruct.AllDerivedSnoc | src/knowledge_graph/9_restruct.py:31-32 | what a list of queries asks for is what all but the last ask for plus what the last asks for |
| Restruct.AllDerivedUnread | src/knowledge_graph/9_restruct.py:31-32 | what earlier queries add is never read by a later query that reads none of their types |
| Restruct.RunQueriesEffect | src/knowledge_graph/9_restruct.py:31-32 | the queries together add what each asks for of the ORIGINAL relationships, so their order does not matter |
| Restruct.RestructureIdempotent | src/knowledge_graph/9_restruct.py:3-32 | running the four queries twice leaves the database as running them once |
| Restruct.DerivedStable | src/knowledge_graph/9_restruct.py:3-32 | what the queries ask for does not change once it is added |
| Restruct.RestructureIff | src/knowledge_graph/9_restruct.py:3-32 | after the queries, a relationship of a query's type from `x` to `y` exists exactly when it existed before or some Incident has both of the query's relationships to `x` and `y`, with the query's labels; nothing else changes |
| Restruct.TaskRecordTyped | src/knowledge_graph/8_kg.py:57-70 | the Task graph script only relates incidents by `HAS_CORRECTIVE_ACTIONS` to nodes labelled `CorrectiveActions` |
| Restruct.AddressedByNeverMade | src/knowledge_graph/9_restruct.py:25-28 | as written, the fourth query matches `CorrectiveAction` nodes, which the Task graph never has, so it asks for nothing and no `ADDRESSED_BY` relationship is made |
| Restruct.AddressedByMade | src/knowledge_graph/9_restruct.py:25-28 | with the label corrected to `CorrectiveActions`, every incident's Influence and corrective-action nodes are joined by `ADDRESSED_BY` |
| Similarity.WeightedTotal | src/knowledge_graph/7_similarity.py:30-40 | `total_similarity`: the sum over the weights of each attribute's similarity times its weight |
| Similarity.ScoresSnoc | src/knowledge_graph/7_similarity.py:36-38 | one more weight adds its attribute's score to the dictionary |
| Similarity.TotalSnoc | src/knowledge_graph/7_similarity.py:36-39 | one more weight adds its score times its weight to the total |
| Similarity.ScoresKeys | src/knowledge_graph/7_similarity.py:34-40 | the scores are keyed by exactly the weighted attribute names |
| Similarity.TotalSimilarity | src/knowledge_graph/7_similarity.py:30-40 | `calculate_total_similarity` returns the weighted sum of the per-attribute scores, with no renormalisation, and the scores keyed by exactly the weighted names |
| Similarity.DefaultTotal | src/knowledge_graph/7_similarity.py:43-48 | with the script's weights the total is 0.4 Event + 0.3 Cause + 0.2 Influence + 0.1 Corrective Actions, and Task is never compared |
| Similarity.WeightedOnly | src/knowledge_graph/7_similarity.py:36-39 | only weighted attributes count: records that agree on them have the same total and scores |
| Similarity.TotalSymmetric | src/knowledge_graph/7_similarity.py:17-40 | a symmetric embedding similarity gives a symmetric total and symmetric scores |
| Similarity.FilledNext | src/knowledge_graph/7_similarity.py:56-60 | one pass of the inner loop records the scores of an off-diagonal pair and skips the diagonal |
| Similarity.FilledRow | src/knowledge_graph/7_similarity.py:55-56 | finishing row `i` is starting row `i + 1` |
| Similarity.FilledAll | src/knowledge_graph/7_similarity.py:55-60 | the loops together build `attribute_similarities` |
| Similarity.CellsRow | src/knowledge_graph/7_similarity.py:55-59 | the cells filled through the end of row `i` are those filled before row `i + 1` |
| Similarity.SimilarityMatrix | src/knowledge_graph/7_similarity.py:51-60 | every off-diagonal cell holds the weighted total of its pair, the diagonal keeps the 0 of `np.zeros`, and `attribute_similarities` holds the scores of every off-diagonal pair |
| Similarity.FillRow | src/knowledge_graph/7_similarity.py:56-60 | the inner loop fills row `i` and its entries of the table |
| Similarity.FillCell | src/knowledge_graph/7_similarity.py:57-60 | one pass fills cell `(i, j)` and its table entry, or skips the diagonal |
| Similarity.MatrixSymmetric | src/knowledge_graph/7_similarity.py:55-59 | with a symmetric embedding similarity the matrix is symmetric |
| Similarity.RowCount | src/knowledge_graph/7_similarity.py:55-56 | a row or a column of an `m`-wide range has `m` pairs |
| Similarity.OffDiagonalSplit | src/knowledge_graph/7_similarity.py:55-57 | the off-diagonal pairs of `m + 1` incidents are those of `m` plus the new row and column, all disjoint |
| Similarity.OffDiagonalCount | src/knowledge_graph/7_similarity.py:55-60 | there are n·(n−1) off-diagonal pairs |
| Similarity.AttrTableCount | src/knowledge_graph/7_similarity.py:53-60 | `attribute_similarities` is keyed by the off-diagonal pairs and has n·(n−1) entries |
| Similarity.SliceStart | src/knowledge_graph/7_similarity.py:72 | the start of the slice `[-top_n:]` lies within the list |
| Similarity.Reverse | src/knowledge_graph/7_similarity.py:72 | `[::-1]` keeps the length |
| Similarity.Ranked | src/knowledge_graph/7_similarity.py:67-81 | `find_most_similar_event` as written: the incidents at the top `top_n` indices of the argsort, most similar first, or `KeyError` when one lookup misses |
| Similarity.FindMostSimilarEvent | src/knowledge_graph/7_similarity.py:67-81 | the loop builds the ranking `Ranked` describes, or the `KeyError` the lookup raises |
| Similarity.RankedShape | src/knowledge_graph/7_similarity.py:71-81 | a successful ranking has as many entries as the slice `[-top_n:]` keeps, in non-increasing order of total similarity |
| Similarity.TopAll | src/knowledge_graph/7_similarity.py:72 | when `top_n` is 0 or at least the length, the slice keeps every index |
| Similarity.TopInRange | src/knowledge_graph/7_similarity.py:72 | the selected indices are indices of the order |
| Similarity.TopDescending | src/knowledge_graph/7_similarity.py:72 | the selected indices come in non-increasing order of their cells |
| Similarity.CollectFails | src/knowledge_graph/7_similarity.py:74-75 | against the matrix loop's table, the lookup raises `KeyError` exactly when the reference index itself is selected |
| Similarity.SelfLookupFails | src/knowledge_graph/7_similarity.py:71-75 | as written, the ranking raises `KeyError` exactly when the reference incident is among the selected indices, which is always the case once `top_n` is 0 or at least the number of incidents |
| Similarity.Without | src/knowledge_graph/7_similarity.py:72 | the order without the reference index keeps every other index and nothing else |
| Similarity.WithoutSorted | src/knowledge_graph/7_similarity.py:72 | removing an index keeps the order ascending |
| Similarity.AscendingTail | src/knowledge_graph/7_similarity.py:72 | the tail of an ascending order is ascending |
| Similarity.ConsSorted | src/knowledge_graph/7_similarity.py:72 | an index whose cell is at most every cell of an ascending order extends it at the front |
| Similarity.HeadBelow | src/knowledge_graph/7_similarity.py:72 | the first index of an ascending order has the smallest cell |
| Similarity.WithoutNotIn | src/knowledge_graph/7_similarity.py:72 | removing an absent index changes nothing |
| Similarity.WithoutLength | src/knowledge_graph/7_similarity.py:72 | removing a present index from an order without repeats shortens it by one |
| Similarity.WithoutBound | src/knowledge_graph/7_similarity.py:72 | removing an index keeps every index in range |
| Similarity.RankedOthers | src/knowledge_graph/7_similarity.py:67-81 | the corrected ranking: the same, over the argsort with the reference incident removed |
| Similarity.RankedOthersSound | src/knowledge_graph/7_similarity.py:67-81 | the corrected ranking, which leaves the reference incident out, never raises for `top_n` at least 1: it lists `min(top_n, n - 1)` other incidents in non-increasing order of similarity |
| Text.Span | src/knowledge_graph/7_knowledge_graph.py:100 | a greedy character-class run stops at the first character outside the class |
| Text.IndexFrom | src/run/2_text_to_df.py:11 | the least index at or after `from` where the pattern occurs, or none when it occurs nowhere after it |
| Text.FirstIndex | src/preprocessing/ler_cfr_mapping.py:38 | a regular-expression search finds the leftmost start position that matches |
| Text.Split | src/preprocessing/5_cfr_data.py:15 | `str.split(sep)` yields at least one piece and no piece contains the separator |
| Text.JoinSplit | src/knowledge_graph/8_kg.py:86 | joining the pieces of a split with the same separator gives back the text |
| Text.JoinEmptyIff | src/knowledge_graph/8_kg.py:103-105 | `" ".join(xs)` is empty exactly when there is no item or the only item is empty |
| Text.ReplaceAllAbsent | src/run/2_text_to_df.py:62 | replacing a pattern that does not occur leaves the text as it is |
| Text.RemoveSpaceJoin | src/knowledge_graph/8_kg.py:65 | removing the spaces of two space-free words joined by a space runs them together |
| Text.Strip | src/knowledge_graph/7_knowledge_graph.py:57 | `strip()` leaves neither leading nor trailing whitespace |
| Text.StripKeeps | src/knowledge_graph/7_knowledge_graph.py:102 | a text that neither starts nor ends with whitespace strips to itself |
| Text.StripEmptyIff | src/knowledge_graph/7_knowledge_graph.py:56 | a text strips to the empty text exactly when it is all whitespace, so `c.strip()` is falsy exactly then |
| Text.StripContained | src/preprocessing/ler_cfr_mapping.py:30 | a stripped slice of a text still occurs in it |
| Text.NatToString | src/knowledge_graph/7_knowledge_graph.py:72 | `str(n)` is a non-empty run of digits without a leading zero |
| Text.NatToStringInjective | src/knowledge_graph/7_knowledge_graph.py:72 | distinct numbers have distinct decimal texts |
| Text.Stem | src/run/2_text_to_df.py:73 | `os.path.splitext(name)[0]` is the name itself or the part before one of its dots |
| Text.LastIndexOfIs | src/run/2_text_to_df.py:73 | the last occurrence of a character is the one with none after it |
| Text.WithExtensionIn | src/run/2_text_to_df.py:114 | the files kept are exactly those whose lower-cased name ends in the extension |
| Text.ListOfSet | src/data/regulation_crawler.py:132 | `list(set(xs))` holds exactly the values of `xs`, each once |
| Text.ReplaceChar | src/knowledge_graph/7_knowledge_graph.py:87 | `replace(' ', '_')` keeps the length and changes exactly the spaces |
| Text.RemoveChar | src/knowledge_graph/8_kg.py:65 | `replace(' ', '')` leaves no space and never lengthens the text |
| Text.LastIndexOf | src/run/2_text_to_df.py:73 | the position found holds the character and none after it does; none found means the character does not occur |

## Left out

- Embeddings: the sentence-transformer model, `util.pytorch_cos_sim` and sklearn's `cosine_similarity` are the parameter `sim: (string, string) -> real` (`Records.Oracle`). Nothing is assumed about its values, since nothing in the code clips them.
- Floating point: scores, weights and totals are `real`, so rounding is not modelled.
- np.argsort: it is the parameter `order`, required only to sort the row in ascending order (`Similarity.IsArgsort`). The order numpy gives to equal scores is not modelled.
- The Neo4j driver, sessions and transaction retries are not modelled. Each `write_transaction` is one atomic list of writes. A transaction that raises is rolled back and ends the script.
- `delete_all_nodes_and_relationships` is the `PropertyGraph.GraphStore.DeleteAll` method. The connection set-up is not modelled.
- Cypher is modelled only through the effect of the few query shapes the scripts send: MERGE on key properties, SET, MATCH-guarded MERGE, and py2neo `merge`/`create`. There is no query parser.
- File, JSON, pickle and CSV I/O, `os.listdir` and `os.path.join`, and `tqdm` progress bars are not modelled. Their inputs are parameters (the records, the table cells, the file names), and what is written is returned as a value.
- `print` output is not modelled, and neither is the pyvis rendering of the networkx graph.
- `pdfplumber`'s `extract_text` is not modelled. A page's text is a parameter of type `Option<string>`, where `None` stands for a page without text.
- LerText.ProcessTxtFile: the `cfr` and `ler_number` values that `process_txt_file` computes are not modelled as part of the row, since the row the script returns leaves them out.
- `Text.Lower` and `Text.Upper` change only the ASCII letters, and `\d`, `\w`, `\s` and `\b` are their ASCII forms. Python's Unicode case mapping and character classes are not modelled.
- Text.ListOfSet: the order of `list(set(...))` depends on string hashing, so the contract states only the membership and the absence of repeats.
- IncidentIngest.InsertCfrNodes: `cfr_dict` is a map, so the order in which Step 2 visits it is not modelled. The node each entry writes has its own key, so the order does not change the result.
- RefineData.Lookup: a metadata value that is an object where the script expects a string is treated like a missing key. The script would write the object's `str()` into the CSV instead.
- RefineData.WriteRows: when a record raises, the rows written before it are kept as a partial file.
- Scripts.MatchedClauses: the sample incident text that `src/run/8_inference.py` hard-codes is the parameter `text`. The lemmas state the scan for every text, the sample included.
- The regulation crawler's Selenium and HTTP parts are not modelled: `collect_regulations`, `_parse_regulations`, `_extract_references` and `src/data/ler_crawler.py`. Only its text analysis is modelled (`RegulationText`).
- Records.Metadata, RefineData.Value: a metadata value is a string or missing. A JSON `NaN` (what an empty cell of the extraction table becomes) or `null` is outside the model. On such a value `8_kg.py`'s `.split(", ")` of the clause raises `AttributeError`, the Neo4j scripts SET the value as a property, and the CSV export writes `nan`; none of this is modelled.
- CfrGraph.Item: an item's attributes are a sequence of (name, values) pairs in dictionary order. The model does not require the names to be distinct, so it also admits inputs with a repeated name, which a Python dictionary cannot hold; the lemmas hold for those inputs too.
- A record attribute is a list of strings (`seq<string>`). A value the entity extractor defaulted to a bare string, which the scripts would iterate character by character, is outside the model.

## Findings

| source | as written | input that shows it | evidently intended | confidence | as-written member | corrected member |
|---|---|---|---|---|---|---|
| src/knowledge_graph/9_restruct.py:26 | the fourth query matches `(ca:CorrectiveAction)` | any graph `8_kg.py` builds, whose corrective-action nodes have the label `CorrectiveActions`: the query matches nothing and no `ADDRESSED_BY` relationship is made | match `CorrectiveActions`, so that each incident's Influence nodes are linked to its corrective actions | high (not executed) | Restruct.AddressedByNeverMade | Restruct.AddressedByMade |
| src/knowledge_graph/7_similarity.py:72-75 | the top `top_n` indices of `argsort` are looked up in `attribute_similarities`, which has no `(i, i)` entry | three incidents with `top_n = 3`: the reference incident is among the three indices, so `attribute_similarities[(event_index, event_index)]` raises `KeyError` | rank only the other incidents | high (not executed) | Similarity.SelfLookupFails | Similarity.RankedOthersSound |

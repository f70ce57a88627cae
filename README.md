# Cohort search oracle

This project models the reference oracle that the BOAC test suite uses to predict what the
advising application should show for a filtered cohort search. There are two parts.

- **Criteria.** The Ruby `CohortFilter` holds one optional value per filter category.
  - `set_test_filters` loads the values from a cohort's test data.
  - It then clears the categories the advisor's department is not offered.
  - The COE ethnicity codes are translated to labels by a seventeen-entry table.
  - `set_custom_filters` assigns attributes by name.
  - `list_filters` reports every attribute's value.
- **Search and sorts.** The page object's `expected_search_results` builds one matching list per
  category from the searchable student records. It intersects the nineteen lists, giving `[]` if
  any of them is empty. The `expected_sids_by_*` methods then give the expected SID order for each
  sort of the results list.

Layout:

| file | module | what it holds |
|---|---|---|
| `students.dfy` | `Students` | the student record, and `map { u[:sid] }` |
| `cohort_filter.dfy` | `CohortFilters` | the criteria value; the `CohortFilter` class; the ethnicity table; attributes by name; `list_filters` |
| `categories.dfy` | `SearchCategories` | one matching list per category, and the loops that build the multi-option lists |
| `search.dfy` | `CohortSearch` | the nineteen lists, their intersection, and `expected_search_results` |
| `labels.dfy` | `BucketLabels` | what concrete GPA and units labels select, boundaries included |
| `sorting.dfy` | `Sorting` | `sort_by` with array keys, partitioning, grouping |
| `sort_oracle.dfy` | `SortOrders` | the seven `expected_sids_by_*` orders |
| `sequences.dfy` | `Sequences` | `select`, `flatten`, `uniq`, `&`, `inject(:'&')` |
| `ruby_strings.dfy` | `RubyStrings` | `delete`, `split`, `downcase`, `gsub`, `String#<=>`, `sort.first` |
| `ruby_numbers.dfy` | `RubyNumbers` | `to_f`, `round(1)` and `round(-1)` as exact arithmetic |
| `wrappers.dfy` | `Wrappers` | `Option` and `Result` |

Outside inputs are parameters:
- the searchable population (`test.searchable_data`);
- the acting advisor's SIS id (`@advisor.sis_id`).

A Ruby exception is a `Failure` of a `Result`:
- a COE gender other than Male or Female (`fail`);
- a last-name range without a word (`nil.downcase`);
- an empty sortable last name (`nil >=`);
- a record without a major in the major sort (`nil.gsub`).

The search results are specified in two steps. `SearchResults` states the result as a function of the
criteria. Lemmas then give its meaning:
- membership: every record of the population that passes every category;
- no duplicates;
- the order is that of the GPA list.

Each sort is specified as a set of orders. Ruby's `sort_by` may return any arrangement whose keys
ascend. Every key ends with the SID, so all such arrangements list the same SIDs, and the expected
order is the one they share.

## Model

| member | source | states |
|---|---|---|
| `CohortFilters.TestFilters` | models/boac/cohort_filter.rb:24-62 | The five global categories are the test data's values. Under ASC or Physics the seven COE categories are nil; otherwise they are the test data's, with the ethnicity codes translated element by element. Under COE or Physics the three ASC categories are nil; otherwise they are the test data's. The five page-only fields keep their old values. |
| `CohortFilters.CohortFilter.SetTestFilters` | models/boac/cohort_filter.rb:24-62 | After the attribute-by-attribute assignments and the department resets, the object holds exactly `TestFilters` of its old state. |
| `CohortFilters.CohortFilter.constructor` | models/boac/cohort_filter.rb:1-19 | A new filter object has every attribute nil. |
| `CohortFilters.TranslateCoeEthnicity` | models/boac/cohort_filter.rb:73-111 | A code has a label exactly when it is one of the seventeen letters A B C D E F G H I L M P R T V X Y. Nil, the empty code and 'Z' give nil. Every other code gives the warning's `true`. |
| `CohortFilters.EthnicityRoundTrip` | models/boac/cohort_filter.rb:75-108 | Each label gives back the letter it came from, so the table can be inverted. |
| `CohortFilters.EthnicityLabelsDistinct` | models/boac/cohort_filter.rb:75-108 | Two different codes that both have labels have different labels: the table is injective. |
| `CohortFilters.TranslateAll` | models/boac/cohort_filter.rb:34 | Translating a list of codes keeps its length and order, and translates each code. |
| `CohortFilters.TranslateCodes` | models/boac/cohort_filter.rb:34 | The translated category is present exactly when the test data has the key. |
| `CohortFilters.Get` | models/boac/cohort_filter.rb:5-19 | Reading an attribute gives nil or a value of that attribute's kind. |
| `CohortFilters.Set` | models/boac/cohort_filter.rb:117 | Writing one attribute makes it read back as the value written, and every other attribute reads as before. |
| `CohortFilters.LastSetting` | models/boac/cohort_filter.rb:117 | There is no last value for an attribute exactly when no pair of the hash names it. |
| `CohortFilters.ApplySettingsGet` | models/boac/cohort_filter.rb:116-118 | After the hash is applied, an attribute named in it holds the last value given for it. Every other attribute keeps its old value. |
| `CohortFilters.CohortFilter.SetCustomFilters` | models/boac/cohort_filter.rb:116-118 | The loop leaves the object holding the pairs of the hash applied in order. |
| `CohortFilters.CohortFilter.ListFilters` | models/boac/cohort_filter.rb:66-68 | Returns every attribute of the object, each as its reader gives it, and changes nothing. `HasCriteriaIff` states what the page concludes from this list. |
| `CohortFilters.HasCriteriaIff` | pages/boac/boac_filtered_cohort_page.rb:444 | `list_filters.flatten.compact.any?` holds exactly when some attribute is true, a string, a non-empty list, or an ethnicity list with a label or with an unrecognised code (whose warning returned `true`). False, nil, `[]` and an ethnicity list of only nil, "" and "Z" lookups count as no criterion. |
| `CohortFilters.AnyTruthyFlattenCompact` | pages/boac/boac_filtered_cohort_page.rb:300 | The flattened, compacted values hold something truthy exactly when one of the values selects. |
| `CohortFilters.AnyTruthySpliced` | pages/boac/boac_filtered_cohort_page.rb:300 | A value contributes something truthy to `flatten.compact` exactly when it selects. |
| `CohortFilters.AnyTruthyCompactNames` | pages/boac/boac_filtered_cohort_page.rb:300 | A list of ethnicity lookups contributes something truthy exactly when it holds a label or a warning's `true`. |
| `SearchCategories.Part` | pages/boac/boac_filtered_cohort_page.rb:467-468 | Indexing a split label gives the element at that index when the index is in range; past the end it is nil. |
| `SearchCategories.GpaBounds` | pages/boac/boac_filtered_cohort_page.rb:466 | A label containing "Below" has the ends "0" and "2.0". |
| `SearchCategories.GpaBucketUsers` | pages/boac/boac_filtered_cohort_page.rb:469-474 | The records of one bucket are exactly the population's records in that bucket. |
| `SearchCategories.GpaUsers` | pages/boac/boac_filtered_cohort_page.rb:463-479 | A record is in the GPA list exactly when it is in the population and either no bucket is selected or it is in one of the selected buckets. |
| `SearchCategories.MatchingGpaUsers` | pages/boac/boac_filtered_cohort_page.rb:463-479 | The append loop followed by `flatten!` computes `GpaUsers`. |
| `SearchCategories.LevelUsers` | pages/boac/boac_filtered_cohort_page.rb:482-488 | With levels selected, a record matches exactly when it has a level contained in one of the selected labels. |
| `SearchCategories.UnitsBucketUsers` | pages/boac/boac_filtered_cohort_page.rb:494-501 | The records of one units bucket are exactly the population's records in it. |
| `SearchCategories.UnitsUsers` | pages/boac/boac_filtered_cohort_page.rb:491-506 | A nil selection passes every record. A present selection, even an empty one, passes exactly the records in some selected bucket. |
| `SearchCategories.MatchingUnitsUsers` | pages/boac/boac_filtered_cohort_page.rb:491-506 | The units loop computes `UnitsUsers`. |
| `SearchCategories.SharesIff` | pages/boac/boac_filtered_cohort_page.rb:511 | `(a & b).any?` holds exactly when the two lists have a common element. |
| `SearchCategories.MajorUsers` | pages/boac/boac_filtered_cohort_page.rb:509-513 | With majors selected, a record matches exactly when one of its majors is selected; with none selected, every record matches. |
| `SearchCategories.TransferUsers` | pages/boac/boac_filtered_cohort_page.rb:516 | When the flag is set, exactly the transfer students pass; otherwise everyone does. |
| `SearchCategories.GradTermUsers` | pages/boac/boac_filtered_cohort_page.rb:519-526 | A record matches exactly when its expected graduation term is one of the selected terms, or when none is selected. |
| `SearchCategories.GenderUsers` | pages/boac/boac_filtered_cohort_page.rb:536-540 | A record matches exactly when its gender is selected, or when none is selected. |
| `SearchCategories.AdvisorUsers` | pages/boac/boac_filtered_cohort_page.rb:543-544 | A record matches exactly when its advisor is selected, or when none is selected. |
| `SearchCategories.PlanUsers` | pages/boac/boac_filtered_cohort_page.rb:547-560 | With plans selected, a record matches exactly when one of its advisor entries has the acting advisor's SID and either a selected plan code or a selected `*`. |
| `SearchCategories.MinorityUsers` | pages/boac/boac_filtered_cohort_page.rb:574 | When the flag is set, exactly the underrepresented-minority records pass. |
| `SearchCategories.InactiveCoeUsers` | pages/boac/boac_filtered_cohort_page.rb:609 | When the flag is set, exactly the inactive COE records pass. |
| `SearchCategories.ProbationUsers` | pages/boac/boac_filtered_cohort_page.rb:612 | When the flag is set, exactly the records on COE probation pass. |
| `SearchCategories.InactiveAscUsers` | pages/boac/boac_filtered_cohort_page.rb:615 | When the flag is set, exactly the records that are not active in ASC pass. This is a rejection. |
| `SearchCategories.IntensiveUsers` | pages/boac/boac_filtered_cohort_page.rb:618 | When the flag is set, exactly the records in the intensive cohort pass. |
| `SearchCategories.TeamUsers` | pages/boac/boac_filtered_cohort_page.rb:621-623 | With teams selected, a record matches exactly when one of its squads is selected. |
| `SearchCategories.LastNameCheck` | pages/boac/boac_filtered_cohort_page.rb:530 | The range test fails in these cases: the range has no word; the record's sortable last name is empty; or the range has one word that the initial is not below. It passes exactly when the initial lies between the two downcased words, both ends included. |
| `SearchCategories.LastNameSelect` | pages/boac/boac_filtered_cohort_page.rb:530 | The selection succeeds exactly when no record's test fails. It then holds exactly the records whose test passes. |
| `SearchCategories.LastNameUsers` | pages/boac/boac_filtered_cohort_page.rb:529-533 | With no range, the whole population. With a range, on success, exactly the records in it. |
| `SearchCategories.EthnicityUsers` | pages/boac/boac_filtered_cohort_page.rb:566 | The records of one label are exactly those whose code translates to it. |
| `SearchCategories.CoeEthnicityUsers` | pages/boac/boac_filtered_cohort_page.rb:563-571 | A record matches exactly when its code translates to one of the selected labels, or when none is selected. |
| `SearchCategories.MatchingCoeEthnicityUsers` | pages/boac/boac_filtered_cohort_page.rb:563-571 | The ethnicity loop computes `CoeEthnicityUsers`. |
| `SearchCategories.CoeGenderValueUsers` | pages/boac/boac_filtered_cohort_page.rb:580-587 | "Male" selects exactly the codes M and m, and "Female" exactly F and f. Any other value fails, carrying that value. |
| `SearchCategories.CoeGenderLists` | pages/boac/boac_filtered_cohort_page.rb:579-588 | The lists succeed exactly when every value is Male or Female. They then hold one list per value. |
| `SearchCategories.CoeGenderFailureStays` | pages/boac/boac_filtered_cohort_page.rb:579-588 | Once a prefix of the values fails, the whole selection fails with the same error, so the loop may stop there. |
| `SearchCategories.CoeGenderUsers` | pages/boac/boac_filtered_cohort_page.rb:577-592 | The category fails exactly when a selected value is neither Male nor Female. Otherwise a record matches exactly when some selected value matches its code. |
| `SearchCategories.MatchingCoeGenderUsers` | pages/boac/boac_filtered_cohort_page.rb:577-592 | The loop, stopping at the first unrecognised value, computes `CoeGenderUsers`. |
| `SearchCategories.PrepStatusUsers` | pages/boac/boac_filtered_cohort_page.rb:598-601 | The records of one PREP status are exactly those with that flag. |
| `SearchCategories.PrepLists` | pages/boac/boac_filtered_cohort_page.rb:597-602 | A record is in the appended lists exactly when some selected value names a PREP status it has. Unrecognised values add nothing. |
| `SearchCategories.PrepUsers` | pages/boac/boac_filtered_cohort_page.rb:595-606 | A record matches exactly when some selected value names a status it has, or when none is selected. |
| `SearchCategories.MatchingPrepUsers` | pages/boac/boac_filtered_cohort_page.rb:595-606 | The PREP loop computes `PrepUsers`. |
| `BucketLabels.GpaRangeBounds` | pages/boac/boac_filtered_cohort_page.rb:466-468 | A "lo - hi" label of two numerals has the ends `lo` and `hi`. |
| `BucketLabels.GpaRangeBucket` | pages/boac/boac_filtered_cohort_page.rb:466-472 | A record is in "lo - hi" exactly when it has a non-zero GPA that is at least `lo` and below `hi` rounded to a tenth. When `hi` is "4.00" the top end is included. |
| `BucketLabels.BelowTwoBucket` | pages/boac/boac_filtered_cohort_page.rb:466-472 | "Below 2.0" takes exactly the present, non-zero GPAs under 2.0. |
| `BucketLabels.LowerMiddleBucket` | pages/boac/boac_filtered_cohort_page.rb:466-472 | "2.00 - 2.99" takes exactly the GPAs from 2.0 up to but excluding 3.0, because 2.99 rounds to 3.0. |
| `BucketLabels.LowerMiddleEnds` | pages/boac/boac_filtered_cohort_page.rb:472 | "2.00" reads as 2.0, and "2.99" rounded to a tenth is 3.0. |
| `BucketLabels.TopBucket` | pages/boac/boac_filtered_cohort_page.rb:472 | "3.50 - 4.00" takes exactly the GPAs from 3.5 to 4.0, both ends included. |
| `BucketLabels.TopEnds` | pages/boac/boac_filtered_cohort_page.rb:472 | "3.50" reads as 3.5, and "4.00" rounded to a tenth is 4.0. |
| `BucketLabels.PlusUnitsBucket` | pages/boac/boac_filtered_cohort_page.rb:494-495 | A label containing "+" takes exactly the records with at least 120 units, so 119.99 is out. |
| `BucketLabels.UnitsRangeBounds` | pages/boac/boac_filtered_cohort_page.rb:497-499 | A "lo - hi" units label has no "+", and it splits into `lo` and `hi`. |
| `BucketLabels.UnitsRangeBucket` | pages/boac/boac_filtered_cohort_page.rb:497-500 | A record is in "lo - hi" exactly when its units, 0 if missing, are at least `lo` and below `hi` rounded to ten. |
| `BucketLabels.SixtyToEightyNineBucket` | pages/boac/boac_filtered_cohort_page.rb:497-500 | "60 - 89" takes exactly the units from 60 up to but excluding 90. |
| `BucketLabels.MissingUnitsCountAsZero` | pages/boac/boac_filtered_cohort_page.rb:500 | A record without units is in "0 - 29", because there is no presence guard. |
| `CohortSearch.Matches` | pages/boac/boac_filtered_cohort_page.rb:625-629 | There are nineteen lists. |
| `CohortSearch.InAcademicLists` | pages/boac/boac_filtered_cohort_page.rb:625 | A record is in all five lists (GPA, level, units, major, transfer) exactly when it is in the population and passes those categories. |
| `CohortSearch.InPersonLists` | pages/boac/boac_filtered_cohort_page.rb:625-626 | The same for gender, graduation term, last name, advisor and My Students. |
| `CohortSearch.InCoeLists` | pages/boac/boac_filtered_cohort_page.rb:627-628 | The same for ethnicity, minority, COE gender, PREP and inactive COE. |
| `CohortSearch.InStatusLists` | pages/boac/boac_filtered_cohort_page.rb:628-629 | The same for probation, inactive ASC, intensive and team. |
| `CohortSearch.MatchesMembership` | pages/boac/boac_filtered_cohort_page.rb:625-629 | A record is in all nineteen lists exactly when it is in the population and passes every category. |
| `CohortSearch.SearchResultsAre` | pages/boac/boac_filtered_cohort_page.rb:460-631 | On success, the result is the GPA list's records that pass every category, in that list's order, each once. The empty-list short cut gives the same result. |
| `CohortSearch.SearchResultsMembership` | pages/boac/boac_filtered_cohort_page.rb:625-630 | A record is returned exactly when it is in the population and passes every category. No record is returned twice. |
| `CohortSearch.SearchFailure` | pages/boac/boac_filtered_cohort_page.rb:528-592 | The search raises exactly when the last-name test raises for some record, or a selected COE gender is neither Male nor Female. |
| `CohortSearch.UnsetCriteriaReturnPopulation` | pages/boac/boac_filtered_cohort_page.rb:460-631 | With no criterion set, the result is the population with repeats removed. |
| `CohortSearch.EmptyUnitsSelectionEmptiesResult` | pages/boac/boac_filtered_cohort_page.rb:490-506 | A units selection of `[]` rather than nil empties the result. |
| `CohortSearch.ExpectedSearchResults` | pages/boac/boac_filtered_cohort_page.rb:460-631 | Building the nineteen lists through their loops and intersecting them computes `SearchResults`. |
| `Sequences.Select` | pages/boac/boac_filtered_cohort_page.rb:469-474 | `select` keeps exactly the elements satisfying the block, and never more elements than the list has. |
| `Sequences.Flatten` | pages/boac/boac_filtered_cohort_page.rb:479 | An element is in the flattened list exactly when it is in one of the lists. |
| `Sequences.Dedup` | pages/boac/boac_filtered_cohort_page.rb:513 | `uniq` keeps every element and repeats none. |
| `Sequences.DedupOfDistinct` | pages/boac/boac_filtered_cohort_page.rb:513 | A list without repeats is its own `uniq`. |
| `Sequences.Intersect` | pages/boac/boac_filtered_cohort_page.rb:511 | `a & b` holds exactly the common elements, each once. |
| `Sequences.Inject` | pages/boac/boac_filtered_cohort_page.rb:630 | `inject(:'&')` holds exactly the elements that are in every list. |
| `Sequences.InjectIsKeepInAll` | pages/boac/boac_filtered_cohort_page.rb:630 | The fold of two or more lists is the first list's elements that are in all the others, repeats removed, in the first list's order. |
| `Sequences.InjectDistinct` | pages/boac/boac_filtered_cohort_page.rb:630 | The fold of two or more lists has no repeats. |
| `Sequences.InjectWithEmpty` | pages/boac/boac_filtered_cohort_page.rb:630 | If one list is empty, so is the fold. |
| `Sequences.InjectUnlessEmpty` | pages/boac/boac_filtered_cohort_page.rb:630 | The guarded fold holds exactly the elements that are in every list. |
| `Sequences.InjectUnlessEmptyIs` | pages/boac/boac_filtered_cohort_page.rb:630 | The guarded fold and the plain fold agree. Both are the first list's elements passing the common test, repeats removed, in order. |
| `RubyStrings.Delete` | pages/boac/boac_filtered_cohort_page.rb:466 | No occurrence of the deleted character remains. |
| `RubyStrings.DeleteItself` | pages/boac/boac_filtered_cohort_page.rb:466 | The deleted character on its own leaves nothing. |
| `RubyStrings.SplitPair` | pages/boac/boac_filtered_cohort_page.rb:466 | Splitting `a + sep + b` gives `[a, b]` when the separator cannot be matched inside `a` or `b`. |
| `RubyStrings.SplitWhitespace` | pages/boac/boac_filtered_cohort_page.rb:530 | `split` with no argument gives non-empty words without whitespace. |
| `RubyStrings.SplitWhitespaceOne` | pages/boac/boac_filtered_cohort_page.rb:530 | A single word without whitespace splits into itself. |
| `RubyStrings.SplitWhitespacePair` | pages/boac/boac_filtered_cohort_page.rb:530 | Two words joined by a space, as in the range "A M", split into exactly those two words, so `split[0]` and `split[1]` are the range's ends. |
| `RubyStrings.Downcase` | pages/boac/boac_filtered_cohort_page.rb:654 | `downcase` keeps the length and lower-cases each character. |
| `RubyStrings.StripNonWord` | pages/boac/boac_filtered_cohort_page.rb:708 | `gsub(/\W/, '')` leaves only word characters and never lengthens the string. |
| `RubyStrings.StripNonWordAppend` | pages/boac/boac_filtered_cohort_page.rb:708 | Stripping a concatenation strips each part in place, so the kept characters stay in order. |
| `RubyStrings.StripNonWordOfWord` | pages/boac/boac_filtered_cohort_page.rb:708 | A string made only of word characters is left unchanged. |
| `RubyStrings.StripNonWordOfNonWord` | pages/boac/boac_filtered_cohort_page.rb:708 | A string without word characters is stripped to "". |
| `RubyStrings.RemoveAll` | pages/boac/boac_filtered_cohort_page.rb:674 | `gsub(' (AA)', '')` never lengthens the string. |
| `RubyStrings.RemoveAllAbsent` | pages/boac/boac_filtered_cohort_page.rb:674 | A string that does not contain the pattern is left unchanged. |
| `RubyStrings.RemoveAllLeading` | pages/boac/boac_filtered_cohort_page.rb:674 | An occurrence of the pattern at the front is removed, and the rest is processed alone. |
| `RubyStrings.RemoveAllKeeps` | pages/boac/boac_filtered_cohort_page.rb:674 | A character that does not begin an occurrence of the pattern is kept, in front of what the rest becomes. With `RemoveAllLeading` this fixes the result for every string. |
| `RubyStrings.LessIrreflexive` | pages/boac/boac_filtered_cohort_page.rb:654 | `String#<=>` as a strict order: no string is below itself. |
| `RubyStrings.LessTransitive` | pages/boac/boac_filtered_cohort_page.rb:654 | The string order is transitive. |
| `RubyStrings.LessTotal` | pages/boac/boac_filtered_cohort_page.rb:654 | Of two different strings, one is below the other. |
| `RubyStrings.LessAsymmetric` | pages/boac/boac_filtered_cohort_page.rb:654 | Two strings are never each below the other. |
| `RubyStrings.Least` | pages/boac/boac_filtered_cohort_page.rb:708 | `sort.first` of a non-empty list is a member that is at most every member. |
| `RubyNumbers.ToF` | pages/boac/boac_filtered_cohort_page.rb:471-472 | `to_f` reads the numeric prefix, negated after a leading '-'. |
| `RubyNumbers.DigitsToF` | pages/boac/boac_filtered_cohort_page.rb:498-499 | A string of digits reads as its integer value. |
| `RubyNumbers.DecimalToF` | pages/boac/boac_filtered_cohort_page.rb:472 | "w.f" reads as the integer `w` plus the fraction 0.f. |
| `RubyNumbers.RoundHalfAway` | pages/boac/boac_filtered_cohort_page.rb:472 | Rounding to an integer lands within one half, with halves going away from zero. |
| `RubyNumbers.RoundTenth` | pages/boac/boac_filtered_cohort_page.rb:472 | `round(1)` is a whole number of tenths within 0.05, with halves going away from zero. |
| `RubyNumbers.RoundTens` | pages/boac/boac_filtered_cohort_page.rb:500 | `round(-1)` is a multiple of ten within 5, with halves going away from zero. |
| `Students.Sids` | pages/boac/boac_filtered_cohort_page.rb:655 | `map { u[:sid] }` keeps the length, and its i-th SID belongs to the i-th record. |
| `Sorting.KeyLessIrreflexive` | pages/boac/boac_filtered_cohort_page.rb:654 | `Array#<=>` on sort keys is a strict order: no key is below itself. |
| `Sorting.KeyLessTransitive` | pages/boac/boac_filtered_cohort_page.rb:654 | The key order is transitive. |
| `Sorting.KeyLessTotal` | pages/boac/boac_filtered_cohort_page.rb:654 | Of two different keys, one is below the other. |
| `Sorting.KeyLeAntisymmetric` | pages/boac/boac_filtered_cohort_page.rb:654 | Keys that are each at most the other are equal. |
| `Sorting.SortBy` | pages/boac/boac_filtered_cohort_page.rb:654 | `sort_by` returns the same elements, as a multiset, with keys ascending. |
| `Sorting.ArrangementKeysUnique` | pages/boac/boac_filtered_cohort_page.rb:654 | Two arrangements of the same elements, both ascending, have equal keys position by position. |
| `Sorting.SelectAscending` | pages/boac/boac_filtered_cohort_page.rb:697 | `select` keeps a list ascending. |
| `Sorting.SplitCount` | pages/boac/boac_filtered_cohort_page.rb:672 | The records with teams and those without together are the input, as a multiset. |
| `Sorting.PartitionSorted` | pages/boac/boac_filtered_cohort_page.rb:670-676 | The sorted first group followed by the sorted second group is an arrangement of the input by the combined key. Each part holds only its own group. |
| `Sorting.GroupedCount` | pages/boac/boac_filtered_cohort_page.rb:695-701 | Grouping keeps each element of rank below n as often as the input has it, and drops every other element. |
| `Sorting.GroupedMembers` | pages/boac/boac_filtered_cohort_page.rb:695-701 | An element is grouped exactly when it is in the input with rank below n. |
| `Sorting.GroupedSorted` | pages/boac/boac_filtered_cohort_page.rb:693-701 | Grouping a list that ascends by a key gives a list that ascends by the rank followed by that key. |
| `SortOrders.ArrangementSidsUnique` | pages/boac/boac_filtered_cohort_page.rb:654-655 | Two ascending arrangements of the same records list the same SIDs when the key ends with the SID. |
| `SortOrders.ArrangementsShareSids` | pages/boac/boac_filtered_cohort_page.rb:654-655 | Every ascending arrangement lists the SIDs of any one of them. |
| `SortOrders.SortedSids` | pages/boac/boac_filtered_cohort_page.rb:654-655 | The result is the SID list of some arrangement with ascending keys, and every such arrangement lists exactly these SIDs. |
| `SortOrders.ExpectedSidsByFirstName` | pages/boac/boac_filtered_cohort_page.rb:653-656 | The SIDs of every arrangement ascending by (first name downcased, last name downcased, SID), and of at least one. |
| `SortOrders.ExpectedSidsByLastName` | pages/boac/boac_filtered_cohort_page.rb:661-664 | The same, by (last name downcased, first name downcased, SID). |
| `SortOrders.ExpectedSidsByGpa` | pages/boac/boac_filtered_cohort_page.rb:683-686 | The same, by (GPA with nil as 0, last name, first name, SID). |
| `SortOrders.ExpectedSidsByUnits` | pages/boac/boac_filtered_cohort_page.rb:715-718 | The same, by (units with nil as 0, last name, first name, SID). |
| `SortOrders.ExpectedSidsByMajor` | pages/boac/boac_filtered_cohort_page.rb:707-710 | The sort fails exactly when a record has no major. Otherwise the result is the SIDs of every arrangement ascending by (least major with non-word characters removed and downcased, last name, first name, SID). |
| `SortOrders.TeamOrder` | pages/boac/boac_filtered_cohort_page.rb:669-677 | The team order is an arrangement of the records by the combined key. No record without a team comes before one with a team. |
| `SortOrders.ExpectedSidsByTeam` | pages/boac/boac_filtered_cohort_page.rb:669-678 | The one-pass split into players and non-players, each sorted, with players first, lists the SIDs of `TeamOrder`. |
| `SortOrders.TeamOrderIsSort` | pages/boac/boac_filtered_cohort_page.rb:674-676 | Every arrangement by the combined key lists the team order's SIDs. The combined key puts players first, by team name without " (AA)" and non-word characters, then everyone else by name. |
| `SortOrders.LevelRank` | pages/boac/boac_filtered_cohort_page.rb:696 | A level's rank is its position among Freshman, Sophomore, Junior, Senior and Graduate. Any other level, or none, ranks after them. |
| `SortOrders.LevelsDistinct` | pages/boac/boac_filtered_cohort_page.rb:696 | The five level names are pairwise different. |
| `SortOrders.LevelRankMatches` | pages/boac/boac_filtered_cohort_page.rb:696-698 | A record's level equals the k-th level exactly when its rank is k. |
| `SortOrders.ListedLevelRank` | pages/boac/boac_filtered_cohort_page.rb:696-699 | A level is one of the five exactly when its rank is below five. |
| `SortOrders.LevelMembers` | pages/boac/boac_filtered_cohort_page.rb:697-699 | The records of one level are exactly those with that level. |
| `SortOrders.LevelBucketsGrouped` | pages/boac/boac_filtered_cohort_page.rb:695-701 | Flattening the level buckets is grouping by level rank. |
| `SortOrders.LevelOrder` | pages/boac/boac_filtered_cohort_page.rb:691-702 | The level order holds exactly the records whose level is one of the five. All others are dropped. |
| `SortOrders.ExpectedSidsByLevel` | pages/boac/boac_filtered_cohort_page.rb:691-702 | The bucket loop lists the SIDs of `LevelOrder`. |
| `SortOrders.LevelOrderArranges` | pages/boac/boac_filtered_cohort_page.rb:691-702 | The level order arranges the records with one of the five levels by (level rank, last name, first name, SID). |
| `SortOrders.LevelOrderIsSort` | pages/boac/boac_filtered_cohort_page.rb:691-702 | Every such arrangement lists the level order's SIDs. |

## Left out

- Browser plumbing is not modelled: DOM lookups, clicks, waits and navigation. This includes `perform_search`, which prunes majors and teams through `.exists?` checks. The `list_filters.flatten.compact.any?` test it uses is modelled (`HasCriteriaIff`).
- The spec scenarios are not modelled. They drive a live application; only the oracle they call is modelled.
- The homepage sorts are not modelled; their page object is not part of this model.
- models/boac/topic.rb is not modelled. It is a constant list without behaviour.
- Logger output is not modelled. The one logger call whose value matters, the warning in `coe_ethnicity`, is taken to return `true`, as Ruby's standard `Logger#warn` does.
- Teams are represented by their names. `Squad::SQUADS` is not part of this model, so a test-data squad name without a squad (which makes Ruby's `find` return nil, and `s.name` raise later) is not modelled.
- GPA and units are exact reals holding the value `to_f` gives. The record holds that value, not the string. Floating-point rounding error is not modelled: a label such as "2.99" reads as exactly 2.99.
- `RubyNumbers.ToF` reads an optional sign, digits and one fractional part. Leading whitespace, underscores and exponents are not modelled, because no bucket label uses them.
- `RubyStrings.Downcase` lower-cases ASCII letters only. Unicode case mapping is not modelled.
- The translated `ethnicity` attribute is read only by the any-criteria test (`HasCriteriaIff`). The COE ethnicity category compares each record's lookup with the selected labels, and neither nil nor the warning's `true` equals a label.
- `CohortFilters.CohortFilter.ListFilters` lists all twenty attributes in a fixed order. Ruby's `instance_variables` lists only the attributes assigned so far, in assignment order. The any-criteria test does not depend on this, because nil and unassigned attributes contribute nothing.
- `CohortFilters.CohortFilter.SetCustomFilters` requires every key to be a known attribute with a value of its kind. Ruby raises `NoMethodError` on an unknown key, and it stores a value of any type; neither is modelled.
- The filter object holds its twenty attributes as one record, and each write replaces one component. Separate mutable fields would not change any contract.
- The criteria type is the union of the attributes the class declares and the five the page reads in addition: `transfer_student`, `expected_grad_terms`, `cohort_owner_academic_plans`, `coe_ethnicity` and `coe_gender`. The page's `coe_ethnicity_per_code` is taken to be the class's `coe_ethnicity` lookup.
- `SearchCategories.PlanUsers` reads an advisor entry's SID and plan code as record fields. The source reads the SID with a symbol key and the plan code with a string key. That difference depends on how the hashes were built, and is not modelled.
- `SearchCategories.UnitsUsers` treats `[]` differently from the other list categories. Those are guarded by `.any?` (pages/boac/boac_filtered_cohort_page.rb:464, :482, :510, :519, :537, :543, :548, :564, :578, :596, :621), so an empty selection there passes every record. Units is guarded by plain truthiness (:492), so `[]` lets no record through and empties the search (`EmptyUnitsSelectionEmptiesResult`).
- `Sorting.SortBy` stands for Ruby's `sort_by`, which is not stable. The sorts are therefore stated for every ascending arrangement rather than for one algorithm. Key elements compare as `Float#<=>` or `String#<=>`. A number is placed below a string, where Ruby would raise, but no key of the oracle compares a number with a string.
- `SortOrders.ExpectedSidsByMajor` fails without naming the record that has no major.
- `SortOrders.TeamKey` and `SortOrders.MajorKey` give an empty name to a record without teams or majors. Neither key is used for such a record.

# wmbusmeters field binding and status decoding, in Dafny

This project models two wmbusmeters drivers.

- **c5isf** is a declarative heat-meter driver. Its constructor registers an ordered table of field descriptors.
  - Each descriptor binds a name, a quantity and a selector to one member of the meter.
  - The selector is a literal DIF/VIF key or a (measurement type, VIF range, storage, tariff, index) tuple.
  - A decode pass writes only the members whose selector found a record. Every other member keeps its value, across the three telegram variants T1A1, T1A2 and T1B.
  - The status field turns an additive decimal error code into space-separated labels, largest trigger first. Code 0 becomes "OK".
- **Ultrimis** is a hand-written water-meter driver.
  - `processContent` updates four members in place. The total and the target are looked up under a `findKey` guard and change only when the telegram holds their record. The info codes and the backward flow are extracted without a guard, and a missing key sets them to zero.
  - `status()` prints the 24-bit info codes as "OK" or as "ERR(xxxxxx)".
  - The volume getters demand a volume unit.

The engine code the drivers call is not part of this model: the record indexer, the extractors and the translator. It is modelled abstractly, in these modules:

- `Records`: a telegram is a sequence of records `Entry(dib, vib, data)`. `DecodeDib` decodes the DIF/DIFE bytes and `DecodeVif` the VIF bytes, following clause 6 of EN 13757-3 (the M-Bus application layer). Only the codes the drivers' telegrams use are covered.
- `Values`: unsigned little-endian integers, scaling by ten to the VIF exponent, and the type G date of Annex A of EN 13757-3, rendered as `YYYY-MM-DD` without validation.
- `Selectors`: `Find` returns the index-th record that matches a selector.
- `Translate`: the greedy DecimalsToString translator.
- `Registry`: field descriptors, what each one extracts, and the slot values after a decode pass (`Updated`).
- `Text` and `Units`: fixed-width digit strings, decimal numbers and unit conversion.

The drivers themselves are modelled in these modules:

- `C5isfFields`: the descriptor table, the ERROR_FLAGS lookup, and the registration loops as a method.
- `DriverC5isf`: the meter class. It has scalar fields and three 14-element arrays, and its `Decode` method writes them in place.
- `C5isfTelegrams`: the records of the driver's example telegrams. For the total energy, the due date and the status records it also shows what their descriptors extract.
- `DriverUltrimis`: the meter class, the status text and the example telegram from the source comment.

## Model

| member | source | states |
|---|---|---|
| DriverC5isf.MeterC5isf.constructor | src/driver_c5isf.cc:28-54 | the fields are the registered descriptors in order, and every slot starts at 0 (numbers) or "" (strings) |
| DriverC5isf.MeterC5isf.Store | src/driver_c5isf.cc:79 | SET_FUNC / SET_STRING_FUNC: the named slot takes the value and every other slot (including the other array cells) is unchanged |
| DriverC5isf.MeterC5isf.Decode | src/driver_c5isf.cc:73-278 | after a pass each slot holds what its own descriptor extracted, or its previous value when the selector found nothing |
| C5isfFields.ErrorFlags | src/driver_c5isf.cc:106-135 | the ERROR_FLAGS lookup has the bound 9999, the OK label "OK" and eighteen rules |
| C5isfFields.ErrorFlagsTriggers | src/driver_c5isf.cc:114-131 | the eighteen triggers are 2000, 1000, 800, 100, 50, 40, 30, 20, 10, 9 down to 1, in that order |
| C5isfFields.ErrorTableWellFormed | src/driver_c5isf.cc:106-135 | a table with those triggers, bound, OK label and labels of three letters or more is well formed |
| C5isfFields.Common | src/driver_c5isf.cc:73-105 | three coherent descriptors (unit and selected VIF range of the field's quantity), the third selecting the literal key 02FD17 through the ERROR_FLAGS lookup |
| C5isfFields.Monthly | src/driver_c5isf.cc:139-177 | month i of a group is coherent, JSON only (print properties JSON alone), named prev_<i+1>_month, and selects Instantaneous values of the group's range at StorageNr(32 + i) |
| C5isfFields.SelectFields | src/driver_c5isf.cc:76 | a FIND_FIELD selector carries the measurement type and VIF range it was given |
| C5isfFields.Select | src/driver_c5isf.cc:76 | a FIND_FIELD selector is structural, pins storage and tariff 0, and takes the first matching record |
| C5isfFields.MonthlyGroup | src/driver_c5isf.cc:139-177 | n coherent monthly descriptors |
| C5isfFields.T1B | src/driver_c5isf.cc:181-278 | nine coherent descriptors |
| C5isfFields.Descriptors | src/driver_c5isf.cc:73-278 | 54 descriptors, every one coherent |
| C5isfFields.RegisterMonthly | src/driver_c5isf.cc:139-177 | one `for i < 14` loop appends exactly the fourteen monthly descriptors prev_1..prev_14 of its group |
| C5isfFields.Register | src/driver_c5isf.cc:69-278 | the registration sequence yields the descriptor table, and that table binds every slot exactly once |
| C5isfFields.MonthlyGroupSnoc | src/driver_c5isf.cc:139-177 | one more loop turn appends the next month's descriptor |
| C5isfFields.DescriptorAt | src/driver_c5isf.cc:73-278 | the k-th registered descriptor is the k-th of common, dates, energies, volumes, T1B |
| C5isfFields.CommonBinds | src/driver_c5isf.cc:73-105 | the three common descriptors write total energy, total volume and status, a text slot exactly for the non-numeric kind |
| C5isfFields.MonthlyBinds | src/driver_c5isf.cc:139-177 | the i-th descriptor of each monthly group writes the i-th cell of its own array |
| C5isfFields.T1BBinds | src/driver_c5isf.cc:181-278 | the nine T1B descriptors write the nine T1B members |
| C5isfFields.DescriptorSlots | src/driver_c5isf.cc:73-278 | descriptor k writes the slot whose index is k, with a kind matching the slot's type |
| C5isfFields.SlotDescribed | src/driver_c5isf.cc:28-54 | every member of the meter is written by some descriptor |
| C5isfFields.SlotIndexInjective | src/driver_c5isf.cc:28-54 | distinct members have distinct descriptor positions below 54 |
| C5isfFields.DescriptorsWellBound | src/driver_c5isf.cc:73-278 | the table has 54 descriptors, each binds its position's slot, and each slot is bound at its position |
| C5isfFields.WellBoundUpdated | src/driver_c5isf.cc:73-278 | under such a table, a pass leaves in each slot its own descriptor's extraction or the old value |
| C5isfFields.ErrorTriggersDescend | src/driver_c5isf.cc:114-131 | the ERROR_FLAGS triggers strictly descend and lie in 1..9999 |
| C5isfFields.ErrorFlagsWellFormed | src/driver_c5isf.cc:106-135 | the ERROR_FLAGS lookup is well formed: descending triggers within its bound 9999, no label equal to "OK" |
| C5isfFields.ErrorLabelsLong | src/driver_c5isf.cc:114-131 | every ERROR_FLAGS label has at least three letters, so none can be taken for "OK" |
| C5isfFields.StatusOkOnlyForZero | src/driver_c5isf.cc:112 | the status reads "OK" if and only if the error code is 0 |
| C5isfFields.TranslatePair | src/driver_c5isf.cc:110 | a code taken up exactly by two rules prints their two labels separated by one space |
| C5isfFields.StatusReverseFlowPass | src/driver_c5isf.cc:120-126 | the greedy pass over the triggers takes 30 and then 6 from code 36, leaving nothing |
| C5isfFields.StatusReverseFlow | src/driver_c5isf.cc:285-286 | code 36 prints "REVERSE_FLOW SUPPLY_SENSOR_INTERRUPTED" |
| C5isfFields.StatusBatteryReverseFlowPass | src/driver_c5isf.cc:115-120 | the greedy pass takes 1000 and then 30 from code 1030 |
| C5isfFields.StatusBatteryReverseFlow | src/driver_c5isf.cc:115-120 | code 1030 prints "BATTERY_EXPIRED REVERSE_FLOW", the larger trigger first |
| C5isfFields.MonthlyFieldLine | src/driver_c5isf.cc:145 | no monthly descriptor is on the text line (JSON only) |
| C5isfFields.CommonFieldLine | src/driver_c5isf.cc:77-102 | the common descriptors put total energy, total volume and status on the text line |
| C5isfFields.T1BFieldLine | src/driver_c5isf.cc:181-278 | no T1B descriptor is on the text line |
| C5isfFields.TextLineFields | src/driver_c5isf.cc:287 | the text line lists exactly total_energy_consumption, total_volume, status, in that order |
| C5isfFields.LastMonthMirrorsFirstMonth | src/driver_c5isf.cc:217-233 | the last-month energy and date fields extract from every telegram what prev_1_month extracts |
| C5isfFields.MonthlyDisjoint | src/driver_c5isf.cc:139-177 | two different monthly descriptors (month or group) never take their value from the same record |
| C5isfTelegrams.DueStorage | src/driver_c5isf.cc:184 | DIF 84/82 with DIFE 04 is storage 8 |
| C5isfTelegrams.MonthStorage | src/driver_c5isf.cc:144 | DIF 84 with DIFE 80 01 is storage 32, DIF C4 with DIFE 80 01 is storage 33 |
| C5isfTelegrams.ThirdMonthStorage | src/driver_c5isf.cc:158 | DIF 84 with DIFE 81 01 is storage 34 |
| C5isfTelegrams.MaximumMonthStorage | src/driver_c5isf.cc:240-242 | DIF 94 with DIFE 80 01 is a maximum value of storage 32 |
| C5isfTelegrams.TopBitWord | src/driver_c5isf.cc:286 | the data 00 00 00 80 is 2147483648, read unsigned |
| C5isfTelegrams.TotalEnergyRecord | src/driver_c5isf.cc:295-296 | 04 06 1A000000 is 26 kWh |
| C5isfTelegrams.TotalVolumeRecord | src/driver_c5isf.cc:295-296 | 04 13 C2080000 is 2.242 m3 |
| C5isfTelegrams.VolumeFlowRecord | src/driver_c5isf.cc:295-296 | 04 3B A4000000 is 0.164 m3/h |
| C5isfTelegrams.PowerRecord | src/driver_c5isf.cc:295-296 | 04 2D 19000000 is 2.5 kW |
| C5isfTelegrams.FlowTemperatureRecord | src/driver_c5isf.cc:295-296 | 02 59 1216 is 56.5 degrees Celsius |
| C5isfTelegrams.ReturnTemperatureRecord | src/driver_c5isf.cc:295-296 | 02 5D E210 is 43.22 degrees Celsius |
| C5isfTelegrams.PrevMonthEnergyRecord | src/driver_c5isf.cc:285-286 | C4 8001 06 00000080 is storage 33 and 2147483648 kWh |
| C5isfTelegrams.PrevMonthVolumeRecord | src/driver_c5isf.cc:290-291 | C4 8001 14 00000080 is storage 33 and 21474836.48 m3 |
| C5isfTelegrams.DateText2022 | src/driver_c5isf.cc:296 | the date word C121 renders as "2022-01-01" |
| C5isfTelegrams.DateText2017 | src/driver_c5isf.cc:286 | the date word 2124 renders as "2017-04-01" |
| C5isfTelegrams.DateTextAllOnes | src/driver_c5isf.cc:286 | the date word FFFF renders as "2127-15-31"; month 15 is passed through |
| C5isfTelegrams.DueDateRecord | src/driver_c5isf.cc:295-296 | 82 04 6C C121 is a type G date of storage 8, the due date "2022-01-01" |
| C5isfTelegrams.TotalEnergyExtracted | src/driver_c5isf.cc:73-80 | the total_energy_consumption descriptor stores 26 kWh from the record 04 06 1A000000 |
| C5isfTelegrams.DueDateExtracted | src/driver_c5isf.cc:190-197 | the due_date descriptor stores "2022-01-01" from the record 82 04 6C C121 |
| C5isfTelegrams.StatusRecord | src/driver_c5isf.cc:285-286 | 02 FD17 2400 holds code 36 and the status field prints "REVERSE_FLOW SUPPLY_SENSOR_INTERRUPTED" |
| C5isfTelegrams.StatusOkRecord | src/driver_c5isf.cc:295-296 | 02 FD17 0000 makes the status field print "OK" |
| C5isfTelegrams.StatusCode | src/driver_c5isf.cc:96 | a 02 FD17 record holds its two data bytes as a 16-bit little-endian code |
| C5isfTelegrams.StatusFound | src/driver_c5isf.cc:96 | the literal key 02FD17 selects the status record |
| C5isfTelegrams.SecondMonthSelected | src/driver_c5isf.cc:153-163 | the storage-33 energy record is selected by prev_2_month and by no other monthly energy field |
| DriverUltrimis.MeterUltrimis.constructor | src/meter_ultrimis.cc:39-42 | the four members start at zero |
| DriverUltrimis.MeterUltrimis.ProcessContent | src/meter_ultrimis.cc:102-138 | the guarded total and target take their record's value when the telegram holds it and keep their value otherwise; the unguarded info codes and backward flow take their record's value, or zero when the key is missing, so the status reads "OK" after a telegram without 03FD17; the info codes stay below 2^24 |
| DriverUltrimis.MeterUltrimis.Status | src/meter_ultrimis.cc:83-100 | "OK" if and only if the info codes are 0; otherwise 11 characters whose six hex digits read back as the code |
| DriverUltrimis.MeterUltrimis.TotalWaterConsumption | src/meter_ultrimis.cc:140-144 | demands a volume unit; in m3 it is the stored total |
| DriverUltrimis.MeterUltrimis.TargetWaterConsumption | src/meter_ultrimis.cc:151-155 | demands a volume unit; in m3 it is the stored target |
| DriverUltrimis.MeterUltrimis.TotalBackwardFlow | src/meter_ultrimis.cc:157-161 | demands a volume unit; in m3 it is the stored backward flow |
| DriverUltrimis.MeterUltrimis.HasTotalWaterConsumption | src/meter_ultrimis.cc:146-149 | always true |
| DriverUltrimis.InfoCodesFit | src/meter_ultrimis.cc:39 | a value under the literal key 03FD17 is a 3-byte integer, so it fits in 24 bits |
| DriverUltrimis.InfoCodesFound | src/meter_ultrimis.cc:128 | whatever the telegram, the info codes found are below 2^24 |
| DriverUltrimis.TotalAndTargetDisjoint | src/meter_ultrimis.cc:123-134 | total (storage 0) and target (storage 1) never come from the same record |
| DriverUltrimis.StatusText | src/meter_ultrimis.cc:94-99 | for a 24-bit code, the status text is "OK" if and only if the code is 0; otherwise it is 11 characters, "ERR(" first and ")" last |
| DriverUltrimis.VolumeOf | src/meter_ultrimis.cc:123-124 | nothing when findKey finds nothing; otherwise the selected record matches the selector, is integer coded, and the volume is its little-endian value scaled by its VIF exponent |
| DriverUltrimis.UnsignedOf | src/meter_ultrimis.cc:128 | nothing when no record has the key; otherwise the selected record matches, is integer coded, and the value is its little-endian data, below 256 to the power of its width |
| DriverUltrimis.StatusHex | src/meter_ultrimis.cc:97 | a non-zero 24-bit code prints as "ERR(", six lower-case hex digits that read back as the code, ")" |
| DriverUltrimis.StatusInjective | src/meter_ultrimis.cc:94-99 | two 24-bit codes with the same status text are equal |
| DriverUltrimis.StatusExample | src/meter_ultrimis.cc:110-111 | the code 0C0C0C prints "ERR(0c0c0c)" |
| DriverUltrimis.ExampleHeaders | src/meter_ultrimis.cc:105-118 | the four example records decode as the comment describes: a 32-bit volume in liters of storage 0, 24-bit error flags, a volume of storage 1, and again a 32-bit volume of storage 0 (the record 04 93 3C) |
| DriverUltrimis.ExampleBlocks | src/meter_ultrimis.cc:105-118 | DIF 04, 03 and 44 are 32-bit storage 0, 24-bit storage 0 and 32-bit storage 1; VIB 13 and 93 3C are volume in liters, FD 17 the error flags |
| DriverUltrimis.ExampleTotalSelectorTwice | src/meter_ultrimis.cc:123 | the total's selector matches both 04 13 and 04 93 3C |
| DriverUltrimis.ExampleTotal | src/meter_ultrimis.cc:105-107 | 04 13 320C0000 is a total of 3.122 m3 |
| DriverUltrimis.ExampleInfoCodes | src/meter_ultrimis.cc:108-111 | 03 FD17 0C0C0C gives the info codes 0C0C0C |
| DriverUltrimis.ExampleTarget | src/meter_ultrimis.cc:112-114 | 44 13 21090000 is a target of 2.337 m3 |
| DriverUltrimis.ExampleBackwardFlow | src/meter_ultrimis.cc:115-118 | 04 93 3C 05000000 is a backward flow of 0.005 m3 |
| Registry.Extract | src/driver_c5isf.cc:73-80 | a value is extracted only when the selector finds a record; it is a number for a numeric descriptor and a text for a date or lookup descriptor |
| Registry.ExtractFound | src/driver_c5isf.cc:73-80 | from the found record a numeric descriptor stores the scaled value converted from the VIF range's unit to its own, a date descriptor the date text, a lookup descriptor the translated code; a record that does not fit the kind stores nothing |
| Registry.ExtractCoherent | src/driver_c5isf.cc:73-80 | a coherent numeric descriptor stores every found integer record, converted to its unit; no unit mismatch can drop it |
| Registry.Updated | src/driver_c5isf.cc:285-291 | a member keeps its previous value when no descriptor for it extracts anything; otherwise it holds the previous value or the extraction of a descriptor for it |
| Registry.UpdatedLast | src/driver_c5isf.cc:285-291 | the last descriptor for a member whose extraction succeeds decides its value |
| Registry.UpdatedSnoc | src/driver_c5isf.cc:285-291 | one more descriptor overwrites its slot when it extracts a value, and nothing else |
| Registry.ExtractBySelector | src/driver_c5isf.cc:217-233 | two descriptors with the same selector and kind extract the same value |
| Registry.UpdatedUnnamed | src/driver_c5isf.cc:285-291 | a member that no descriptor names keeps its value |
| Registry.UpdatedSingle | src/driver_c5isf.cc:285-291 | a member named by exactly one descriptor holds that descriptor's extraction, or its old value when nothing is found |
| Registry.FieldLine | src/driver_c5isf.cc:287 | every descriptor marked FIELD has its name on the text line, which is no longer than the table |
| Registry.FieldLineNames | src/driver_c5isf.cc:287 | every name on the text line is the name of a descriptor marked FIELD |
| Registry.FieldLineAppend | src/driver_c5isf.cc:77 | the text line of two tables in a row is the first's line followed by the second's |
| Selectors.Hit | src/meter_ultrimis.cc:123 | a literal key matches exactly the records with that DIF/VIF key; a structural match needs a decodable header with the selector's measurement type, VIF range, storage and tariff |
| Selectors.Find | src/meter_ultrimis.cc:123 | a found record matches the selector and has exactly index-1 matching records before it; nothing is found when fewer records match |
| Selectors.Scan | src/driver_c5isf.cc:244 | the scan returns a matching record preceded by exactly n-1 earlier matches, or none when there are fewer than n |
| Selectors.FindSpec | src/driver_c5isf.cc:244 | IndexNr(n) selects the record with exactly n-1 earlier matches; nothing is selected when there are fewer than n |
| Selectors.FindFirst | src/driver_c5isf.cc:244 | with IndexNr(1) the first matching record is selected, and none when no record matches |
| Selectors.CountZero | src/driver_c5isf.cc:244 | no match is counted exactly when no record in the range matches |
| Selectors.CountMonotone | src/driver_c5isf.cc:244 | a matching record raises the count |
| Selectors.ScanExact | src/driver_c5isf.cc:244 | a match with the right number of earlier matches is what the scan returns |
| Selectors.DisjointSelect | src/meter_ultrimis.cc:123-134 | selectors that differ in type, range, storage or tariff never select the same record |
| Translate.Greedy | src/driver_c5isf.cc:106-135 | the triggers taken plus the remainder equal the code, every rule taken is from the table, and a rule not taken exceeds the remainder |
| Translate.GreedyInOrder | src/driver_c5isf.cc:114-131 | the rules taken are a subsequence of the table, in table order |
| Translate.StepsDownDescending | src/driver_c5isf.cc:114-131 | neighbouring triggers that descend make the whole table descend |
| Translate.InOrderDescending | src/driver_c5isf.cc:114-131 | a subsequence of a descending table descends, so labels print largest trigger first |
| Translate.InOrderMember | src/driver_c5isf.cc:114-131 | every rule of a subsequence is a rule of the table |
| Translate.Decompose | src/driver_c5isf.cc:106-135 | a non-zero code gives at least one label: the labels of the rules taken, in order, then exactly one more label, UNKNOWN_ and the leftover in decimal, when part of the code is left over; no label holds a space when no rule label does |
| Translate.DecomposeKeepsCode | src/driver_c5isf.cc:106-135 | read back from the printed labels, the code is kept: the triggers of the rules whose labels lead, plus the number after UNKNOWN_ in the extra label, add up to the code |
| Translate.Translate | src/driver_c5isf.cc:106-135 | code 0 prints the OK label; any other code prints text that splits at its spaces back into its labels, when no rule label holds a space |
| Translate.TranslateOk | src/driver_c5isf.cc:112 | for a well-formed lookup the OK label is printed if and only if the code is 0 |
| Translate.TranslateKeepsCode | src/driver_c5isf.cc:110 | the printed triggers and the unknown remainder add up to the code, in descending order |
| Records.CodingRoundTrip | src/meter_ultrimis.cc:105-108 | every data field coding has a DIF code that decodes back to it |
| Records.DecodeDib | src/driver_c5isf.cc:144 | a decoded DIB has a correct extension chain, its function field from the DIF, and its storage from bit 6 of the DIF plus four bits per DIFE |
| Records.EncodeDifesDecodes | src/driver_c5isf.cc:144 | the DIFEs written for a storage, tariff and subunit form a chain that decodes back to them |
| Records.DifByteFields | src/driver_c5isf.cc:144 | the DIF written for a DIB carries its coding, function field, low storage bit and extension bit |
| Records.DecodeCons | src/driver_c5isf.cc:144 | a DIF followed by DIFEs decodes field by field |
| Records.EncodeDibRoundTrip | src/driver_c5isf.cc:139-177 | decoding the DIB written for any storage, tariff, subunit and coding gives it back |
| Records.PrimaryVif | src/meter_ultrimis.cc:106 | every primary VIF the model knows has an exponent from -6 to 1 |
| Records.DecodeVif | src/meter_ultrimis.cc:109-110 | only a VIB with a correct extension chain decodes |
| Records.VifRoundTrip | src/meter_ultrimis.cc:116-117 | a range and exponent that have a VIF decode back from it |
| Records.PrimaryVifRoundTrip | src/meter_ultrimis.cc:106 | every known primary VIF is the code written for what it decodes to |
| Records.HeaderOf | src/meter_ultrimis.cc:105-118 | a record's header holds its decoded DIB and VIF, and its data is as wide as its coding |
| Values.LeUnsigned | src/driver_c5isf.cc:286 | the unsigned little-endian value of w bytes is below 256^w; no byte is read as a sign |
| Values.NumericRoundTrip | src/driver_c5isf.cc:295-296 | a count below 256^w written under an integer DIB and a primary VIF reads back as the count times ten to the VIF exponent, and as the count unscaled |
| Values.DateRoundTrip | src/driver_c5isf.cc:296 | a representable date written as a two-byte type G record reads back as its rendered text |
| Values.RenderDate | src/driver_c5isf.cc:286 | a date with a four-digit year renders as ten characters, dashes at positions 4 and 7 |
| Values.LeRoundTrip | src/driver_c5isf.cc:295 | a value below 256^w written as w little-endian bytes reads back |
| Values.LeBytesOfValue | src/driver_c5isf.cc:295 | w data bytes read as a value and written back give the same bytes |
| Values.Numeric | src/meter_ultrimis.cc:107 | a number is the unsigned little-endian data times ten to the VIF exponent |
| Values.Unsigned | src/meter_ultrimis.cc:128 | an unsigned value is an integer record's data, below 256 to its width |
| Values.DecodeDateG | src/driver_c5isf.cc:141-148 | a type G date word gives a year 2000..2127, a month below 16 and a day below 32 |
| Values.DateGRoundTrip | src/driver_c5isf.cc:141-148 | decoding the word written for a representable date gives the date back |
| Values.DateGWordRoundTrip | src/driver_c5isf.cc:141-148 | writing back a decoded date word gives the word |
| Values.RenderDateRoundTrip | src/driver_c5isf.cc:286 | the rendered YYYY-MM-DD text parses back to the date |
| Values.DateText | src/driver_c5isf.cc:286 | the text of a date word parses back to its decoded date |
| Values.DateTextInjective | src/driver_c5isf.cc:286 | two date words with the same text are equal |
| Values.Date | src/driver_c5isf.cc:141-148 | a date field is a 2-byte type G record, printed as its date text |
| Text.Digits | src/meter_ultrimis.cc:97 | w digit characters, lower-case hex letters at most |
| Text.DigitsRoundTrip | src/meter_ultrimis.cc:97 | a number below b^w printed in w zero-padded digits parses back |
| Text.DecimalRoundTrip | src/driver_c5isf.cc:142 | the decimal text of a number is all digits and parses back |
| Text.JoinSpaced | src/driver_c5isf.cc:286 | one label prints alone; two or more print the first label, one space, then the rest joined the same way; the text starts with the first label |
| Text.SplitJoin | src/driver_c5isf.cc:286 | cutting the joined text at its spaces gives back the labels, when no label holds a space |
| Units.Convert | src/meter_ultrimis.cc:143 | converting within a quantity to the same unit returns the value unchanged |
| Units.ConvertRoundTrip | src/meter_ultrimis.cc:143 | converting to another unit of the same quantity and back returns the value |

## Left out

- Driver registration, detection by manufacturer, version and type, security mode and link mode (src/driver_c5isf.cc:57-67, src/meter_ultrimis.cc:47-59): dispatch plumbing outside the field-binding layer.
- The byte walker that splits a telegram into records: a telegram is given as its sequence of records. Its source is not part of this model.
- Selectors.Find: takes matching records in telegram order. The engine's record index is a map ordered by hex key, whose code is not part of this model. The two orders differ only when one selector matches several records. In the Ultrimis example the total's selector matches 04 13 and 04 93 3C (ExampleTotalSelectorTwice). Both orders put 0413 first, so the total is 3.122 m3 either way. A telegram that carried 04 93 3C before 04 13 would make the model's total the backward flow, where a key-ordered index would still take 0413.
- VIFE chains beyond the extension bit. A combinable VIFE such as 3C (backward flow) does not change the range. The byte walker's key still carries the VIFE, so the literal key 04933C tells it apart from 0413.
- Real, BCD and variable-length data codings. Only integer codings yield values; the c5isf and Ultrimis telegrams use nothing else.
- Wildcards. The c5isf status descriptor's AnyStorageNr/AnyTariffNr is modelled by its literal key 02FD17 alone.
- JSON and text rendering of doubles, the media string, timestamps, descriptions and help text. Values are exact reals.
- Non-identity unit conversion factors. `Units.Convert` uses exact SI factors; only the identity case is claimed for the drivers.
- `addMoreExplanation` annotation strings (src/meter_ultrimis.cc:125-137): logging text only.
- Translate.Translate: the lookup's bound 9999 is checked of the table (ErrorFlagsWellFormed) but not applied to the code. Whatever the rules leave over is reported as an UNKNOWN_<n> label, because the translator's own source is not part of this model.
- Translate.TranslateOk: labels are only required to differ from the OK label.
- Translate.Decompose: as for Translate, the bound 9999 is not applied to the code, and the leftover becomes one UNKNOWN_<n> label in decimal; the translator that prints it is not part of this model.
- DriverUltrimis.StatusText: it requires a code below 2^24. The pass only stores such codes (InfoCodesFit); for a wider code the source's six-digit hex format would print more digits.
- Translate.Translate: that the text splits back into its labels is stated for tables whose labels hold no space. That the eighteen ERROR_FLAGS labels hold none is not proved.
- DriverUltrimis.MeterUltrimis.ProcessContent: the extractions of 03FD17 and 04933C (src/meter_ultrimis.cc:128 and 136) have no findKey guard, so a missing key is handled by the engine's extract helpers, which are not part of this model. The model follows those helpers in writing zero on a missing key. A record that is present but does not decode as an integer leaves the member as it was.
- DriverUltrimis.MeterUltrimis.ProcessContent: the source's extractDVuint24 reads three bytes whatever the DIF says. The model reads the record's own width. Under the literal key 03FD17 the DIF is 03, so both read three bytes (InfoCodesFit).
- DriverUltrimis.MeterUltrimis.Status: it is stated for codes below 2^24 only. The member is 32 bits wide in the source but is filled from three bytes.
- The whole-telegram decode of the c5isf example telegrams. They are modelled record by record: each lemma decodes one record, and for the total energy, the due date and the status it shows what the descriptor extracts. The other fields follow from `ExtractFound`, `ExtractCoherent` and `Decode`'s contract, but are not worked out telegram by telegram.
- Concurrency and the meter's shared ownership: not present in the drivers' logic.

TestResult.DisplayName,TestResult.Outcome,TestResult.Duration,TestResult.ResourceCount,RandomSeed
RecordLine.LineRoundTrip (correctness),Passed,00:00:00.3973829,770597,3
QueueRecordWriter.WorkerState.Drain (correctness),Passed,00:00:00.3934418,454717,3
QueueRecordWriter.WorkerState.DrainIteration (correctness),Passed,00:00:00.3713214,1183638,3
QueueRecordWriter.QueueWriter.Write (correctness),Passed,00:00:00.3366832,655516,3
Base64RecordWriter.Base64Writer.Write (correctness),Passed,00:00:00.2716349,804052,3
Base64.Encode (well-formedness),Passed,00:00:00.2286097,781459,3
QueueRecordWriter.WorkerState.DrainLine (correctness),Passed,00:00:00.2204520,859498,3
QueueRecordWriter.WorkerState.Step (correctness),Passed,00:00:00.2086156,922762,3
Base64RecordWriter.Base64Writer.Write (well-formedness),Passed,00:00:00.2085456,731818,3
RecordLine.BuildLine (correctness),Passed,00:00:00.1903460,215521,3
RecordLine.ParseLine (well-formedness),Passed,00:00:00.1890600,127783,3
RecordLine.LineRoundTrip (well-formedness),Passed,00:00:00.1844737,183424,3
QueueRecordWriter.WorkerState.DrainAbort (correctness),Passed,00:00:00.1808270,774675,3
HrrsServletFilter.HrrsFilter.RecordRequest (correctness),Passed,00:00:00.1804432,298865,3
QueueRecordWriter.WorkerState.DrainAdvance (correctness),Passed,00:00:00.1780852,785509,3
QueueRecordWriter.WorkerState.DrainFailed (correctness),Passed,00:00:00.1645047,768113,3
QueueRecordWriter.DrainOutcome (well-formedness),Passed,00:00:00.1576296,708785,3
RecordLine.LineLayout (correctness),Passed,00:00:00.1541460,192358,3
Base64.DecodeEncode (correctness),Passed,00:00:00.1540122,397536,3
QueueRecordWriter.WorkerState.DrainAbort (well-formedness),Passed,00:00:00.1537689,767841,3
RecordFrame.HeadersFrameSucceeds (correctness),Passed,00:00:00.1531273,325341,3
RecordLine.ParseLineSteps (well-formedness),Passed,00:00:00.1519689,119864,3
RecordFrame.HeadersFrameSnoc (correctness),Passed,00:00:00.1500621,381440,3
HrrsServletFilter.HrrsFilter.RecordRequest (well-formedness),Passed,00:00:00.1468683,174587,3
Api.LabelledParses (correctness),Passed,00:00:00.1450143,478352,3
QueueRecordWriter.WorkerState.DrainLine (well-formedness),Passed,00:00:00.1413397,799666,3
Base64RecordWriter.SameLine (correctness),Passed,00:00:00.1403899,272408,3
RecordLine.SerializedLineNonEmpty (correctness),Passed,00:00:00.1326820,133887,3
Api.TimeLabelHasNoComma (correctness),Passed,00:00:00.1320876,182417,3
RecordFrame.HeadersSection (well-formedness),Passed,00:00:00.1303546,47508,3
RecordFrame.HeadersFrame (well-formedness),Passed,00:00:00.1250114,48646,3
Base64.DecodeSingle (correctness),Passed,00:00:00.1240281,69942,3
Base64RecordWriter.CreateWriter (correctness),Passed,00:00:00.1224392,72302,3
Base64RecordWriter.CreateWriter (well-formedness),Passed,00:00:00.1192393,62579,3
RecordFrame.ReadFrame (well-formedness),Passed,00:00:00.1162764,91120,3
RecordFrame.ReadHeadersFrame (correctness),Passed,00:00:00.1160860,294052,3
HrrsServletFilter.DOT (well-formedness),Passed,00:00:00.1159895,3843,3
DataStream.DataOutputBuffer.WriteUtf (well-formedness),Passed,00:00:00.1146058,45486,3
DataStream.DataOutputBuffer.WriteUtf (correctness),Passed,00:00:00.1127034,54979,3
Text.IndexOf (well-formedness),Passed,00:00:00.1103159,105947,3
HrrsServletFilter.RecordGroupIgnoresQuery (correctness),Passed,00:00:00.1080187,156366,3
QueueRecordWriter.QueueWriter.Write (well-formedness),Passed,00:00:00.1075504,166710,3
HrrsServletFilter.CreateRecord (correctness),Passed,00:00:00.1047335,150536,3
Base64.DecodeQuad (correctness),Passed,00:00:00.1045362,208540,3
RecordLine.ParseLineSteps (correctness),Passed,00:00:00.1041494,125109,3
HrrsServletFilter.GroupNameExample (correctness),Passed,00:00:00.1032400,50015,3
WriterTarget.Target.Write (correctness),Passed,00:00:00.1013669,39169,3
RecordLine.JoinSeven (correctness),Passed,00:00:00.0989837,490242,3
Base64.Decode (well-formedness),Passed,00:00:00.0951824,151188,3
HrrsServletFilter.GroupNameOfPath (correctness),Passed,00:00:00.0944224,60349,3
RecordLine.SerializeFails (correctness),Passed,00:00:00.0937737,126252,3
QueueRecordWriter.CloseAndDrain (correctness),Passed,00:00:00.0932637,221284,3
RecordFrame.WriteHeaders (correctness),Passed,00:00:00.0906245,275679,3
Jvm.JChar (well-formedness),Passed,00:00:00.0902631,3671,3
Jvm.Byte (well-formedness),Passed,00:00:00.0899567,3671,3
Api.AffixesStrip (correctness),Passed,00:00:00.0899505,17636,3
Base64.EncodeHasNoSeparators (correctness),Passed,00:00:00.0887241,290194,3
RecordFrame.WriteHeader (correctness),Passed,00:00:00.0882281,158651,3
RecordFrame.FrameSucceeds (correctness),Passed,00:00:00.0882110,197197,3
RecordFrame.ReadHeaders (well-formedness),Passed,00:00:00.0871358,64810,3
QueueRecordWriter.WorkerState.DrainFinished (correctness),Passed,00:00:00.0865601,104555,3
HrrsServletFilter.HrrsFilter.DoFilter (well-formedness),Passed,00:00:00.0861135,188294,3
WriterTarget.Target.Flush (well-formedness),Passed,00:00:00.0854426,32517,3
RecordLine.LineLayout (well-formedness),Passed,00:00:00.0854314,137499,3
HrrsServletFilter.HrrsFilter.DoFilter (correctness),Passed,00:00:00.0850445,216978,3
QueueRecordWriter.WorkerState.DrainPassed (correctness),Passed,00:00:00.0825180,97316,3
QueueRecordWriter.WorkerState.Drained (well-formedness),Passed,00:00:00.0790088,96170,3
RecordFrame.FrameLayout (correctness),Passed,00:00:00.0780923,287807,3
Text.Split (well-formedness),Passed,00:00:00.0719748,32505,3
ModifiedUtf8.U16 (well-formedness),Passed,00:00:00.0716327,13169,3
ModifiedUtf8.Encode (well-formedness),Passed,00:00:00.0713309,29731,3
QueueRecordWriter.WorkerState.DrainedTo (well-formedness),Passed,00:00:00.0682008,129464,3
RecordLine.SerializedLineNonEmpty (well-formedness),Passed,00:00:00.0671663,106251,3
HrrsServletFilter.RecordGroupIgnoresQuery (well-formedness),Passed,00:00:00.0669744,135535,3
Base64.DecodePair (correctness),Passed,00:00:00.0647421,127173,3
RecordFrame.WriteRecord (correctness),Passed,00:00:00.0636857,142429,3
QueueRecordWriter.WorkerState.DrainWrote (correctness),Passed,00:00:00.0631408,113361,3
RecordFrame.FrameRoundTrip (correctness),Passed,00:00:00.0628642,159622,3
RecordFrame.HeadersFrameSplit (correctness),Passed,00:00:00.0623476,52852,3
HrrsServletFilter.CreateHeaders (correctness),Passed,00:00:00.0622449,144434,3
Base64RecordWriter.SameLine (well-formedness),Passed,00:00:00.0612552,143493,3
QueueRecordWriter.QueueWriter._ctor (correctness),Passed,00:00:00.0611458,61945,3
QueueRecordWriter.WorkerState.DrainAdvance (well-formedness),Passed,00:00:00.0608422,143024,3
RecordLine.Serialize (well-formedness),Passed,00:00:00.0595598,118273,3
RecordLine.SerializeFails (well-formedness),Passed,00:00:00.0588709,104996,3
RecordFrame.ReadHeaderStrings (correctness),Passed,00:00:00.0587467,58758,3
QueueRecordWriter.WorkerState.DrainWrote (well-formedness),Passed,00:00:00.0580523,93542,3
Text.IndexOfAfterField (correctness),Passed,00:00:00.0573200,100590,3
RecordFrame.HeadersFrameAppend (correctness),Passed,00:00:00.0571569,85512,3
RecordFrame.ReadFrameSteps (correctness),Passed,00:00:00.0559892,146588,3
Decimal.RenderRoundTrip (correctness),Passed,00:00:00.0559529,111144,3
QueueRecordWriter.WorkerState.Step (well-formedness),Passed,00:00:00.0555300,127485,3
QueueRecordWriter.WorkerState.DrainHalt (well-formedness),Passed,00:00:00.0548409,89356,3
RecordFrame.FrameSteps (correctness),Passed,00:00:00.0546166,90771,3
QueueRecordWriter.WorkerState.HandledBeforeFailure (correctness),Passed,00:00:00.0544590,30108,3
QueueRecordWriter.WorkerState.Drain (well-formedness),Passed,00:00:00.0532513,130228,3
ModifiedUtf8.DecodeEncode (correctness),Passed,00:00:00.0530402,116695,3
QueueRecordWriter.QueueWriter._ctor (well-formedness),Passed,00:00:00.0528375,44733,3
QueueRecordWriter.WorkerState.DrainHalt (correctness),Passed,00:00:00.0521103,112916,3
QueueRecordWriter.BeforeSentinelAppend (correctness),Passed,00:00:00.0514376,121659,3
Api.ResponseInfo.ToString (well-formedness),Passed,00:00:00.0508440,78719,3
ModifiedUtf8.DecodeUnit (correctness),Passed,00:00:00.0506843,177071,3
RecordFrame.WriteHeaderPairs (correctness),Passed,00:00:00.0505552,87007,3
QueueRecordWriter.WorkerState.DrainStart (correctness),Passed,00:00:00.0497246,117917,3
RecordFrame.FrameRoundTrip (well-formedness),Passed,00:00:00.0495847,109738,3
RecordFrame.FrameSteps (well-formedness),Passed,00:00:00.0491534,82605,3
RecordFrame.WriteHeader (well-formedness),Passed,00:00:00.0479797,50353,3
RecordFrame.HeadersFrameSucceeds (well-formedness),Passed,00:00:00.0477715,47047,3
QueueRecordWriter.WorkerState.RestValid (well-formedness),Passed,00:00:00.0468050,15706,3
WriterTarget.Target._ctor (correctness),Passed,00:00:00.0458766,30943,3
RecordLine.GeneratedFieldsSeparatorFree (correctness),Passed,00:00:00.0455355,99660,3
QueueRecordWriter.WorkerState.DrainIteration (well-formedness),Passed,00:00:00.0449603,118394,3
DataStream.ReadWriteInt (correctness),Passed,00:00:00.0443992,226916,3
RecordLine.SplitJoin (correctness),Passed,00:00:00.0437873,104156,3
RecordFrame.FrameLayout (well-formedness),Passed,00:00:00.0424980,87330,3
RecordFrame.HeadersFrameCons (correctness),Passed,00:00:00.0423869,64519,3
HrrsServletFilter.ExamplePieces (correctness),Passed,00:00:00.0421445,105839,3
HrrsServletFilter.InitDestroyInit (correctness),Passed,00:00:00.0420639,104775,3
WriterTarget.Target.Write (well-formedness),Passed,00:00:00.0416511,33187,3
Base64.DecodeSingle (well-formedness),Passed,00:00:00.0400342,34060,3
QueueRecordWriter.QueueWriter.Apply (correctness),Passed,00:00:00.0398594,66828,3
Base64.DecodePair (well-formedness),Passed,00:00:00.0391630,40073,3
RecordFrame.HeadersSectionLayout (correctness),Passed,00:00:00.0391417,79719,3
QueueRecordWriter.FirstFailure (well-formedness),Passed,00:00:00.0379367,59637,3
RecordLine.JoinFreeOfRecordSeparator (correctness),Passed,00:00:00.0378673,59546,3
QueueRecordWriter.WorkerState.DrainStart (well-formedness),Passed,00:00:00.0373311,80915,3
HrrsServletFilter.HrrsFilter.Init (correctness),Passed,00:00:00.0372044,88367,3
RecordFrame.ReadHeadersCons (correctness),Passed,00:00:00.0360324,56436,3
RecordFrame.HeadersSectionLayout (well-formedness),Passed,00:00:00.0354394,54516,3
Decimal.DigitsRoundTrip (correctness),Passed,00:00:00.0350034,44685,3
HrrsServletFilter.HrrsFilter.Init (well-formedness),Passed,00:00:00.0349654,76460,3
RecordFrame.HeadersFrameHeadFails (correctness),Passed,00:00:00.0349544,47397,3
ModifiedUtf8.ReadWriteUtf (correctness),Passed,00:00:00.0348133,111648,3
HrrsServletFilter.StripQueryCut (correctness),Passed,00:00:00.0341949,67054,3
Api.ResponseInfoTextParses (correctness),Passed,00:00:00.0335209,64713,3
HrrsServletFilter.HrrsFilter.Destroy (correctness),Passed,00:00:00.0331841,63835,3
RecordFrame.FrameSucceeds (well-formedness),Passed,00:00:00.0330543,67536,3
QueueRecordWriter.WorkerState.DrainStepFacts (correctness),Passed,00:00:00.0326548,70251,3
QueueRecordWriter.BeforeSentinel (well-formedness),Passed,00:00:00.0326517,68793,3
RecordLine.Fields (well-formedness),Passed,00:00:00.0324347,36146,3
RecordFrame.ReadFrameSteps (well-formedness),Passed,00:00:00.0323777,65525,3
QueueRecordWriter.WorkerState.DrainHead (well-formedness),Passed,00:00:00.0322477,29003,3
RecordFrame.HeadersFrameCons (well-formedness),Passed,00:00:00.0318626,50039,3
RecordFrame.ReadHeadersFrame (well-formedness),Passed,00:00:00.0316600,73501,3
QueueRecordWriter.ReliableNeverFails (correctness),Passed,00:00:00.0315244,55949,3
ModifiedUtf8.ReadWriteUtf (well-formedness),Passed,00:00:00.0308070,50874,3
QueueRecordWriter.FirstFailureIs (well-formedness),Passed,00:00:00.0305363,32345,3
Api.ParseLabelled (well-formedness),Passed,00:00:00.0304834,43851,3
WriterTarget.Target.Flush (correctness),Passed,00:00:00.0304754,41207,3
HrrsServletFilter.LineLength (well-formedness),Passed,00:00:00.0302534,51286,3
RecordFrame.HeadersFrameFailsAt (correctness),Passed,00:00:00.0302040,59856,3
QueueRecordWriter.QueueWriter.Apply (well-formedness),Passed,00:00:00.0301865,49892,3
QueueRecordWriter.LineFails (well-formedness),Passed,00:00:00.0296981,24789,3
HrrsServletFilter.HeaderPairsInOrder (correctness),Passed,00:00:00.0296255,67636,3
HrrsServletFilter.GroupName (well-formedness),Passed,00:00:00.0295028,94380,3
QueueRecordWriter.FlushMarks (well-formedness),Passed,00:00:00.0287548,31768,3
RecordFrame.HeadersFrameSnoc (well-formedness),Passed,00:00:00.0284403,45169,3
HrrsServletFilter.HeaderPairs (well-formedness),Passed,00:00:00.0281928,47082,3
HrrsServletFilter.HrrsFilter.Destroy (well-formedness),Passed,00:00:00.0281903,58234,3
HrrsServletFilter.GroupNameIgnoresQuery (correctness),Passed,00:00:00.0280970,56994,3
RecordFrame.WriteHeaderPairs (well-formedness),Passed,00:00:00.0279996,51708,3
QueueRecordWriter.BrokenStreamFailsAt (correctness),Passed,00:00:00.0277899,60907,3
HrrsServletFilter.SlashesToDots (well-formedness),Passed,00:00:00.0276353,28642,3
QueueRecordWriter.WorkerState.FlushMarksStep (correctness),Passed,00:00:00.0276254,43929,3
Text.FirstFieldUnique (correctness),Passed,00:00:00.0275179,45118,3
QueueRecordWriter.SentinelSplit (correctness),Passed,00:00:00.0274123,54916,3
QueueRecordWriter.WorkerState.DrainHead (correctness),Passed,00:00:00.0268911,44551,3
HrrsServletFilter.GroupNameOfQueriedPath (correctness),Passed,00:00:00.0268410,59221,3
RecordFrame.ReadHeaderStrings (well-formedness),Passed,00:00:00.0260105,56503,3
RecordFrame.HeadersFrameHeadFails (well-formedness),Passed,00:00:00.0258416,44020,3
HrrsServletFilter.RunChain (correctness),Passed,00:00:00.0255986,51387,3
RecordFrame.HeadersFrameFailsAt (well-formedness),Passed,00:00:00.0255041,44022,3
HrrsServletFilter.PayloadOf (well-formedness),Passed,00:00:00.0247474,45008,3
RecordFrame.HeadersEncodable (well-formedness),Passed,00:00:00.0246379,26617,3
QueueRecordWriter.WorkerState.FlushLogStep (correctness),Passed,00:00:00.0242334,42710,3
ModifiedUtf8.WriteUtf (well-formedness),Passed,00:00:00.0242074,69082,3
QueueRecordWriter.CloseAndDrain (well-formedness),Passed,00:00:00.0241067,58639,3
DataStream.ReadInt (well-formedness),Passed,00:00:00.0238521,26909,3
Text.SplitField (correctness),Passed,00:00:00.0231417,45103,3
ModifiedUtf8.Decode (well-formedness),Passed,00:00:00.0230696,43508,3
RecordFrame.WritePayload (correctness),Passed,00:00:00.0230672,71933,3
QueueRecordWriter.QueueWriter.Close (correctness),Passed,00:00:00.0226121,59131,3
RecordLine.Join (well-formedness),Passed,00:00:00.0225508,18198,3
HrrsServletFilter.GroupNameOfPath (well-formedness),Passed,00:00:00.0222270,42135,3
Base64.ValueOf (well-formedness),Passed,00:00:00.0219328,27929,3
HrrsServletFilter.InitDestroyInit (well-formedness),Passed,00:00:00.0218535,56963,3
RecordFrame.WriteHeaders (well-formedness),Passed,00:00:00.0213579,55797,3
QueueRecordWriter.BrokenStreamFailsAt (well-formedness),Passed,00:00:00.0212916,32505,3
DataStream.DataOutputBuffer._ctor (correctness),Passed,00:00:00.0211610,12381,3
QueueRecordWriter.NoSentinel (correctness),Passed,00:00:00.0210345,25305,3
DataStream.DataOutputBuffer.WriteInt (correctness),Passed,00:00:00.0209689,18520,3
Base64.Quad (well-formedness),Passed,00:00:00.0207447,28581,3
QueueRecordWriter.WorkerState.HandledBeforeFailure (well-formedness),Passed,00:00:00.0205495,30060,3
RecordFrame.ReadHeadersCons (well-formedness),Passed,00:00:00.0203959,47131,3
QueueRecordWriter.WorkerState.FailedAtFirstFailure (correctness),Passed,00:00:00.0203724,31222,3
RecordLine.JoinSeven (well-formedness),Passed,00:00:00.0202837,18184,3
QueueRecordWriter.WorkerState.FailedAtFirstFailure (well-formedness),Passed,00:00:00.0200200,30039,3
RecordLine.SplitJoin (well-formedness),Passed,00:00:00.0200195,27885,3
RecordFrame.ThenAssociative (correctness),Passed,00:00:00.0194933,24938,3
Api.SplitWithoutSeparator (correctness),Passed,00:00:00.0193206,25948,3
HrrsServletFilter.RequestUri (well-formedness),Passed,00:00:00.0192651,28460,3
Decimal.Render (well-formedness),Passed,00:00:00.0192320,27319,3
DataStream.DataOutputBuffer.Write (well-formedness),Passed,00:00:00.0190712,12131,3
RecordFrame.WritePayload (well-formedness),Passed,00:00:00.0190478,22470,3
HrrsServletFilter.RunChain (well-formedness),Passed,00:00:00.0189110,32150,3
RecordFrame.HeadersFrameSplit (well-formedness),Passed,00:00:00.0186974,43613,3
DataStream.Be32 (well-formedness),Passed,00:00:00.0185884,37192,3
QueueRecordWriter.FirstFailureIs (correctness),Passed,00:00:00.0184714,35195,3
Jvm.Lit (well-formedness),Passed,00:00:00.0184428,34462,3
Decimal.Digits (well-formedness),Passed,00:00:00.0183582,43490,3
QueueRecordWriter.WorkerState.LineOkIff (correctness),Passed,00:00:00.0182345,30135,3
Decimal.MINUS (well-formedness),Passed,00:00:00.0180390,3843,3
QueueRecordWriter.WorkerState.FlushLogStep (well-formedness),Passed,00:00:00.0177375,25155,3
QueueRecordWriter.WorkerState.DrainStepFacts (well-formedness),Passed,00:00:00.0177369,22388,3
QueueRecordWriter.WorkerState.Valid (well-formedness),Passed,00:00:00.0177001,24918,3
QueueRecordWriter.WorkerState._ctor (correctness),Passed,00:00:00.0176452,30278,3
RecordFrame.Regroup (correctness),Passed,00:00:00.0175693,16599,3
Base64.ValueOfLetter (correctness),Passed,00:00:00.0175587,28182,3
QueueRecordWriter.WorkerState.PrefixStep (correctness),Passed,00:00:00.0175209,20952,3
Api.RenderHasNoComma (correctness),Passed,00:00:00.0173980,15981,3
HrrsServletFilter.RecordSink.Write (well-formedness),Passed,00:00:00.0173309,26512,3
QueueRecordWriter.WorkerState.FlushMarksStep (well-formedness),Passed,00:00:00.0172236,22982,3
Api.ResponseInfo.SetResponseTime (correctness),Passed,00:00:00.0169588,11902,3
Base64.PAD (well-formedness),Passed,00:00:00.0168889,3844,3
RecordLine.SeparatorFree (well-formedness),Passed,00:00:00.0168109,10719,3
DataStream.DataOutputBuffer.Write (correctness),Passed,00:00:00.0166780,12999,3
Base64RecordWriter.Base64Writer._ctor (correctness),Passed,00:00:00.0166386,25047,3
Base64.ValueOfLetter (well-formedness),Passed,00:00:00.0164864,12444,3
RecordFrame.Then (well-formedness),Passed,00:00:00.0164813,10963,3
QueueRecordWriter.ReliableNeverFails (well-formedness),Passed,00:00:00.0164319,30513,3
Decimal.Parse (well-formedness),Passed,00:00:00.0163956,19993,3
HrrsServletFilter.HrrsFilter._ctor (correctness),Passed,00:00:00.0163036,12749,3
Base64.QuadBits (well-formedness),Passed,00:00:00.0162221,14314,3
QueueRecordWriter.QueueWriter.Valid (well-formedness),Passed,00:00:00.0161975,22189,3
HrrsServletFilter.HeaderPairsInOrder (well-formedness),Passed,00:00:00.0161329,30313,3
RecordFrame.PayloadSection (well-formedness),Passed,00:00:00.0160256,17327,3
HrrsServletFilter.FilterChain.DoFilter (correctness),Passed,00:00:00.0160078,28202,3
ModifiedUtf8.ReadUtf (well-formedness),Passed,00:00:00.0158303,30422,3
Api.ResponseInfo.SetStatusCode (correctness),Passed,00:00:00.0155739,11902,3
Wrappers.Result.PropagateFailure (well-formedness),Passed,00:00:00.0155113,7119,3
Api.ResponseInfo._ctor (correctness),Passed,00:00:00.0154599,20550,3
RecordFrame.TakeAll (correctness),Passed,00:00:00.0152545,7830,3
Base64.QuadBits (correctness),Passed,00:00:00.0149267,92280,3
Decimal.ParseDigits (well-formedness),Passed,00:00:00.0149072,22569,3
DataStream.ReadBytes (well-formedness),Passed,00:00:00.0148808,11964,3
QueueRecordWriter.WorkerState.LineOkIff (well-formedness),Passed,00:00:00.0148727,28898,3
HrrsServletFilter.NULL_TEXT (well-formedness),Passed,00:00:00.0147754,5025,3
QueueRecordWriter.IsQueuedLine (well-formedness),Passed,00:00:00.0147480,8963,3
HrrsServletFilter.StripQuery (well-formedness),Passed,00:00:00.0145965,29683,3
Decimal.RenderHasNoSeparators (correctness),Passed,00:00:00.0143683,21105,3
HrrsServletFilter.NO_ENUM_CONSTANT (well-formedness),Passed,00:00:00.0143538,21041,3
HrrsServletFilter.Recorded (well-formedness),Passed,00:00:00.0143190,33874,3
ModifiedUtf8.EncodeUnit (well-formedness),Passed,00:00:00.0140018,41127,3
Api.AffixesStrip (well-formedness),Passed,00:00:00.0139302,15655,3
HrrsServletFilter.HrrsFilter.SetEnabled (well-formedness),Passed,00:00:00.0138441,8713,3
HrrsServletFilter.CONTEXT_NOT_INITIALIZED (well-formedness),Passed,00:00:00.0138025,14366,3
RecordLine.Line (well-formedness),Passed,00:00:00.0137845,16098,3
Api.ResponseInfo.Values (well-formedness),Passed,00:00:00.0136207,12121,3
Jvm.Sub32 (well-formedness),Passed,00:00:00.0135998,14730,3
HrrsServletFilter.SERVLET_CONTEXT_ATTRIBUTE_KEY (well-formedness),Passed,00:00:00.0134691,14792,3
QueueRecordWriter.AfterSentinel (well-formedness),Passed,00:00:00.0133341,17404,3
HrrsServletFilter.PayloadFromStream (well-formedness),Passed,00:00:00.0133192,23946,3
Api.ResponseInfo.SetStatusCode (well-formedness),Passed,00:00:00.0130600,10896,3
Base64.Letter (well-formedness),Passed,00:00:00.0127761,8257,3
HrrsServletFilter.ATTRIBUTE_ALREADY_INITIALIZED (well-formedness),Passed,00:00:00.0127189,18022,3
HrrsServletFilter.HasLineTerminator (well-formedness),Passed,00:00:00.0126826,10455,3
HrrsServletFilter.FilterChain.DoFilter (well-formedness),Passed,00:00:00.0124973,22060,3
QueueRecordWriter.QueueWriter.Close (well-formedness),Passed,00:00:00.0124711,30984,3
Api.ResponseInfo._ctor (well-formedness),Passed,00:00:00.0123305,15401,3
RecordLine.JoinFreeOfRecordSeparator (well-formedness),Passed,00:00:00.0121610,19845,3
Api.ResponseInfo.GetResponseTime (correctness),Passed,00:00:00.0120085,7475,3
HrrsServletFilter.RecordSink.Write (correctness),Passed,00:00:00.0118918,27816,3
DataStream.DataOutputBuffer.WriteInt (well-formedness),Passed,00:00:00.0116295,16235,3
HrrsServletFilter.ServletContext._ctor (correctness),Passed,00:00:00.0116236,23028,3
QueueRecordWriter.CAPACITY (well-formedness),Passed,00:00:00.0113995,3751,3
Wrappers.Option.Extract (well-formedness),Passed,00:00:00.0113071,6995,3
Jvm.Sub64 (well-formedness),Passed,00:00:00.0112662,14731,3
Decimal.ZERO (well-formedness),Passed,00:00:00.0109263,3843,3
Jvm.Int32 (well-formedness),Passed,00:00:00.0109202,4280,3
HrrsServletFilter.FilterChain._ctor (correctness),Passed,00:00:00.0108841,15169,3
HrrsServletFilter.NOT_RECORDABLE (well-formedness),Passed,00:00:00.0108531,9246,3
QueueRecordWriter.WorkerState.PrefixStep (well-formedness),Passed,00:00:00.0108388,12420,3
QueueRecordWriter.QueueWriter.IsReady (well-formedness),Passed,00:00:00.0106539,13324,3
Api.ResponseInfo.GetStatusCode (correctness),Passed,00:00:00.0104716,7475,3
HrrsServletFilter.CONTEXT_ALREADY_INITIALIZED (well-formedness),Passed,00:00:00.0102992,15452,3
QueueRecordWriter.WorkerState.AppendAssociative (correctness),Passed,00:00:00.0102443,9151,3
QueueRecordWriter.WorkerState.RestValid (correctness),Passed,00:00:00.0098257,18542,3
HrrsServletFilter.StripLeadingSlash (well-formedness),Passed,00:00:00.0094799,10126,3
HrrsServletFilter.HrrsFilter.SetEnabled (correctness),Passed,00:00:00.0092548,10147,3
Jvm.LF (well-formedness),Passed,00:00:00.0091837,3843,3
HrrsServletFilter.X_HRRS_QUEUE (well-formedness),Passed,00:00:00.0091169,8066,3
Base64RecordWriter.Base64Writer.Close (well-formedness),Passed,00:00:00.0090518,6887,3
HrrsServletFilter.HttpServletResponse._ctor (correctness),Passed,00:00:00.0090496,16106,3
HrrsServletFilter.RecordSink._ctor (correctness),Passed,00:00:00.0088477,11995,3
HrrsServletFilter.QUESTION_MARK (well-formedness),Passed,00:00:00.0086576,3843,3
HrrsServletFilter.DEFAULT_MAX_RECORDABLE_PAYLOAD_BYTE_COUNT (well-formedness),Passed,00:00:00.0085904,4921,3
Api.ResponseInfo.SetResponseTime (well-formedness),Passed,00:00:00.0084879,10896,3
RecordFrame.TakeAll (well-formedness),Passed,00:00:00.0078542,7502,3
QueueRecordWriter.WorkerState.Sink (well-formedness),Passed,00:00:00.0077811,14553,3
Base64RecordWriter.Base64Writer.Close (correctness),Passed,00:00:00.0077673,5501,3
HrrsServletFilter.LOGGED_PL (well-formedness),Passed,00:00:00.0076581,7869,3
Wrappers.Result.Extract (well-formedness),Passed,00:00:00.0076559,7065,3
QueueRecordWriter.QueueWriter.IsReady (correctness),Passed,00:00:00.0076522,12392,3
RecordFrame.AppendAssociative (correctness),Passed,00:00:00.0072384,10495,3
HrrsServletFilter.HrrsFilter.IsEnabled (correctness),Passed,00:00:00.0070415,5792,3
Base64RecordWriter.Base64Writer.IsReady (correctness),Passed,00:00:00.0070165,4643,3
Jvm.JList (well-formedness),Passed,00:00:00.0068467,5477,3
Jvm.Int64 (well-formedness),Passed,00:00:00.0068307,4281,3
HrrsServletFilter.SLASH (well-formedness),Passed,00:00:00.0067433,3843,3
Jvm.TAB (well-formedness),Passed,00:00:00.0062538,3843,3
HrrsServletFilter.PL (well-formedness),Passed,00:00:00.0058673,4337,3
Api.COMMA (well-formedness),Passed,00:00:00.0058240,3843,3
HrrsServletFilter.LOGGED (well-formedness),Passed,00:00:00.0055731,5921,3
HrrsServletFilter.X_HRRS (well-formedness),Passed,00:00:00.0055705,5921,3

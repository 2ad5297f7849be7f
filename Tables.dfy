/**
 * The static tables of scripts/seed-data.js, as data: `STATE_FIPS`
 * (lines 20-33), `STATE_COL_INDEX` (lines 36-49) and `PROVIDER_NAMES`
 * (lines 107-572). Where the object literal repeats a key, the later entry is
 * the one JavaScript keeps, and the one kept here: 130228 is "Lumen" (line 151,
 * not line 109); 450162 and 460604 repeat at lines 546-547 with the same names.
 */
module Tables {

  /** `STATE_FIPS`: two-digit state code to state name. */
  const StateFips: map<string, string> := map[
    "01" := "Alabama",
    "02" := "Alaska",
    "04" := "Arizona",
    "05" := "Arkansas",
    "06" := "California",
    "08" := "Colorado",
    "09" := "Connecticut",
    "10" := "Delaware",
    "11" := "District of Columbia",
    "12" := "Florida",
    "13" := "Georgia",
    "15" := "Hawaii",
    "16" := "Idaho",
    "17" := "Illinois",
    "18" := "Indiana",
    "19" := "Iowa",
    "20" := "Kansas",
    "21" := "Kentucky",
    "22" := "Louisiana",
    "23" := "Maine",
    "24" := "Maryland",
    "25" := "Massachusetts",
    "26" := "Michigan",
    "27" := "Minnesota",
    "28" := "Mississippi",
    "29" := "Missouri",
    "30" := "Montana",
    "31" := "Nebraska",
    "32" := "Nevada",
    "33" := "New Hampshire",
    "34" := "New Jersey",
    "35" := "New Mexico",
    "36" := "New York",
    "37" := "North Carolina",
    "38" := "North Dakota",
    "39" := "Ohio",
    "40" := "Oklahoma",
    "41" := "Oregon",
    "42" := "Pennsylvania",
    "44" := "Rhode Island",
    "45" := "South Carolina",
    "46" := "South Dakota",
    "47" := "Tennessee",
    "48" := "Texas",
    "49" := "Utah",
    "50" := "Vermont",
    "51" := "Virginia",
    "53" := "Washington",
    "54" := "West Virginia",
    "55" := "Wisconsin",
    "56" := "Wyoming",
    "72" := "Puerto Rico"
  ]

  /** `STATE_COL_INDEX`: state name to cost-of-living index (national average 100). */
  const StateColIndex: map<string, int> := map[
    "Alabama" := 89,
    "Alaska" := 127,
    "Arizona" := 103,
    "Arkansas" := 89,
    "California" := 142,
    "Colorado" := 105,
    "Connecticut" := 111,
    "Delaware" := 101,
    "District of Columbia" := 125,
    "Florida" := 101,
    "Georgia" := 93,
    "Hawaii" := 192,
    "Idaho" := 97,
    "Illinois" := 94,
    "Indiana" := 91,
    "Iowa" := 90,
    "Kansas" := 89,
    "Kentucky" := 90,
    "Louisiana" := 92,
    "Maine" := 99,
    "Maryland" := 113,
    "Massachusetts" := 131,
    "Michigan" := 90,
    "Minnesota" := 98,
    "Mississippi" := 84,
    "Missouri" := 89,
    "Montana" := 95,
    "Nebraska" := 92,
    "Nevada" := 104,
    "New Hampshire" := 106,
    "New Jersey" := 115,
    "New Mexico" := 91,
    "New York" := 123,
    "North Carolina" := 96,
    "North Dakota" := 96,
    "Ohio" := 90,
    "Oklahoma" := 87,
    "Oregon" := 113,
    "Pennsylvania" := 96,
    "Rhode Island" := 99,
    "South Carolina" := 95,
    "South Dakota" := 95,
    "Tennessee" := 91,
    "Texas" := 92,
    "Utah" := 97,
    "Vermont" := 104,
    "Virginia" := 104,
    "Washington" := 110,
    "West Virginia" := 88,
    "Wisconsin" := 93,
    "Wyoming" := 93,
    "Puerto Rico" := 85
  ]

  /** `PROVIDER_NAMES`: FCC provider id to display name. */
  const ProviderNames: map<string, string> := map[
    "130077" := "Charter Communications",
    "130228" := "Lumen",
    "130403" := "AT&T",
    "130747" := "Comcast",
    "131425" := "Cox Communications",
    "131455" := "Frontier Communications",
    "131531" := "Verizon",
    "130008" := "TDS Telecom",
    "130004" := "Windstream",
    "131472" := "Altice USA",
    "130103" := "Mediacom",
    "131197" := "Cable One",
    "130127" := "Consolidated Communications",
    "130148" := "Cincinnati Bell",
    "130293" := "Atlantic Broadband",
    "130005" := "CenturyLink",
    "131083" := "Sparklight",
    "130002" := "Brightspeed",
    "130001" := "Ziply Fiber",
    "131527" := "Spectrum",
    "130627" := "Hughes Network Systems",
    "290111" := "Viasat",
    "430076" := "Starlink",
    "390122" := "Tombigbee Fiber",
    "390052" := "Pine Belt Communications",
    "390040" := "Mon-Cre Telephone",
    "260052" := "TW Telecom",
    "131310" := "TDS Telecom",
    "190123" := "Direct Management Company",
    "130498" := "Windstream",
    "130485" := "Frontier Cables",
    "131395" := "United Wireless",
    "131141" := "Rural Telephone Svc",
    "420187" := "Golden West Telecom",
    "130317" := "Comcast",
    "130235" := "Charter Communications",
    "130370" := "Altice USA",
    "130534" := "GCI",
    "130982" := "New Hope Telephone Cooperative",
    "131386" := "Evertek Enterprises",
    "130258" := "Frontier Communications",
    "460677" := "Major Mobile Provider",
    "360117" := "Fusion Connect",
    "470022" := "Brightspeed",
    "130079" := "Astound Broadband",
    "130360" := "Cox Communications",
    "130452" := "Google Fiber",
    "130006" := "US Cellular",
    "131413" := "Windstream",
    "130623" := "Hotwire Communications",
    "130183" := "Cable One",
    "310015" := "Callabyte Technology",
    "130335" := "Consolidated Communications",
    "131081" := "Metronet",
    "130804" := "Mediacom",
    "360061" := "One Ring Networks",
    "290010" := "Nextlink Internet",
    "410114" := "Vyve Broadband",
    "280001" := "Breezeline",
    "130081" := "Viya",
    "130254" := "Cincinnati Bell",
    "370032" := "Delta Telecom",
    "130133" := "Blanchard Telephone",
    "230043" := "Southeast Nebraska Communications",
    "300171" := "Visionary Broadband",
    "310024" := "Brainstorm Internet",
    "130453" := "Emery Telcom",
    "380072" := "All West Communications",
    "170054" := "Fiber is Fast",
    "131387" := "Ultimate Internet Access",
    "131219" := "South Central Utah Telephone",
    "270027" := "Wtechlink",
    "131497" := "Intermax Networks",
    "420173" := "Ziply Fiber",
    "190303" := "LocalTel Communications",
    "470055" := "NCI Datacom",
    "340029" := "Midco",
    "130132" := "Blackfoot Communications",
    "131102" := "Nemont",
    "130826" := "Black Hills Energy",
    "440186" := "Direct Management Company",
    "130032" := "Albion Telephone Company",
    "130036" := "All West Communications",
    "320127" := "White Cloud Communications",
    "310036" := "EL Internet Northwest",
    "130831" := "Midvale Telephone Exchange",
    "131190" := "Horizon Communications",
    "170071" := "Ptera",
    "430175" := "First Step Internet",
    "140048" := "Project Mutual Telephone",
    "390006" := "AirBridge Broadband",
    "130964" := "Nushagak Electric & Telephone Cooperative",
    "130791" := "GCI Communication Corp",
    "260068" := "GCI Communication Corp",
    "290093" := "Xfinity",
    "370088" := "Spectrum",
    "380048" := "Consolidated Smart Systems",
    "140084" := "Alaska Communications",
    "130349" := "Community Telephone Co",
    "130160" := "Bristol Tennessee Essential Services",
    "190281" := "Ozarks Electric Cooperative",
    "130029" := "Albany Mutual Telephone",
    "131208" := "FastTrack Communications",
    "131016" := "PCC Holdings",
    "131038" := "Pine Belt Communications",
    "130067" := "Arkansas Telephone Company",
    "390106" := "Aristotle Unified Communications",
    "450100" := "Yelcot Telephone Company",
    "131518" := "Ritter Communications",
    "450169" := "RightFiber",
    "350110" := "Velocity Telephone",
    "270020" := "Calaveras Telephone Company (CalTel)",
    "350030" := "DigitalPath",
    "131207" := "SmarterBroadband",
    "340041" := "Velocity Communications",
    "370162" := "Ciello",
    "360114" := "Union Telephone Company",
    "440029" := "Luminate Broadband",
    "460089" := "Visionary Broadband",
    "130663" := "Rise Broadband",
    "131362" := "Mercury Broadband",
    "190311" := "Cruzio Internet",
    "170001" := "Am\U{e9}rica M\U{f3}vil",
    "131302" := "MaxxSouth Broadband",
    "450172" := "Mid-Missouri Telephone Company",
    "130781" := "Mark Twain Rural Telephone Company",
    "130550" := "Golden West Telecommunications",
    "131367" := "Triangle Communications",
    "130890" := "Nemont Telephone Cooperative",
    "320117" := "CC Communications",
    "340070" := "BARC Electric Cooperative",
    "130821" := "Midco",
    "130926" := "SkyBest Communications",
    "460087" := "Sebastian Fiber",
    "131090" := "Range Telephone Cooperative",
    "360134" := "Direct Communications",
    "460631" := "Nextlink Internet",
    "131145" := "Wes-Tex Telephone Cooperative",
    "130337" := "Consolidated Telcom",
    "131384" := "Twin Lakes Telephone Cooperative",
    "410067" := "Tennessee Telephone Company",
    "130199" := "Cap Rock Telephone Cooperative",
    "130123" := "Big Bend Telephone Company",
    "131162" := "Santa Rosa Telephone Cooperative",
    "131055" := "Poka Lambro Telephone Cooperative",
    "340059" := "XIT Communications",
    "340001" := "Valley Telephone Cooperative",
    "131211" := "Consolidated Companies",
    "131340" := "Nebraska Central Telephone",
    "300025" := "CenturyTel of Wisconsin",
    "130937" := "Langlade County Telephone",
    "131328" := "Thacker-Grigsby Telephone",
    "130865" := "Peoples Rural Telephone Cooperative",
    "130507" := "Appalachian Wireless",
    "131029" := "Jackson Energy Cooperative",
    "130423" := "Duo County Telephone",
    "131039" := "Pine Telephone Company",
    "190233" := "Southwest Oklahoma Telephone",
    "131007" := "PTCI Panhandle Telephone",
    "130490" := "FTC Communications",
    "131459" := "Palmetto Rural Telephone",
    "460632" := "Consolidated Communications",
    "131181" := "Shenandoah Telephone",
    "130588" := "Hardy Telecommunications",
    "130071" := "Armstrong Telephone Company",
    "131485" := "Trenton Telephone Company",
    "130458" := "Plateau Telecommunications",
    "320055" := "Cyber Mesa Computer Systems",
    "160127" := "All West Communications",
    "130560" := "Grand River Mutual Telephone",
    "130259" := "Heart of Iowa Communications",
    "130018" := "Agri-Valley Communications",
    "160157" := "CTC Telecom",
    "260056" := "CenturyLink",
    "440004" := "4-County Fiber (FASTnet)",
    "131422" := "Venture Communications Cooperative",
    "130243" := "West River Cooperative Telephone",
    "131170" := "Scott County Telephone Cooperative",
    "130396" := "DTC Communications",
    "130112" := "Ben Lomand Rural Telephone",
    "131611" := "Highland Telephone Cooperative",
    "130405" := "Dickey Rural Networks",
    "130950" := "Northwest Communications Cooperative",
    "130108" := "Believe Wireless",
    "131465" := "West River Telecommunications (WRT)",
    "130825" := "Mid-Plains Rural Telephone Cooperative",
    "130227" := "Central Texas Telephone Cooperative",
    "130400" := "Trans-Pecos Telephone",
    "310096" := "Big Country Telecom",
    "320114" := "Victoria Electric Cooperative",
    "131349" := "Titonka Telephone Company",
    "130886" := "Nebraska Technology & Telecom",
    "130065" := "Arapahoe Telephone Company",
    "130569" := "Mobius Communications",
    "131366" := "TCT West",
    "220073" := "Silver Star Communications",
    "130929" := "North Central Telephone Cooperative",
    "130607" := "Hiawatha Telephone Company",
    "430222" := "Pioneer Wireless",
    "131125" := "Comporium",
    "450162" := "Liberty Puerto Rico",
    "460604" := "Claro Puerto Rico",
    "360094" := "Nevada Wireless",
    "240109" := "Three Rivers Communications",
    "131486" := "Lumen Technologies",
    "270011" := "DirectLink",
    "260003" := "Lakefield Telephone Company",
    "290018" := "Bloosurf",
    "130044" := "Alma Telecom",
    "131041" := "Pineland Telephone Cooperative",
    "150258" := "Ellijay Telephone Company",
    "131365" := "TEC (Telephone Electronics Corporation)",
    "130391" := "Darien Telephone Company",
    "360065" := "OzarksGo",
    "130878" := "Louisa Communications",
    "190182" := "Harlan Municipal Utilities",
    "131216" := "South Central Communications",
    "130094" := "Ballard Rural Telephone",
    "130150" := "Brandenburg Telephone Company",
    "130095" := "BARC Electric Cooperative",
    "410139" := "Cherry Capital Connection",
    "440167" := "Alpena Wireless",
    "131482" := "Wikstrom Telephone Company",
    "130526" := "Garden Valley Telephone Company",
    "131014" := "Paul Bunyan Communications",
    "310094" := "Arthur Mutual Telephone",
    "130940" := "NEMR Telecom",
    "130124" := "Chariton Valley Telecom",
    "130114" := "BW Telcom",
    "131226" := "Springview Telephone Company",
    "150250" := "Jefferson Telecom",
    "390061" := "La Jicarita Rural Telephone",
    "130708" := "Penasco Valley Telephone",
    "131199" := "SkyLine Membership Corporation",
    "131516" := "Yadkin Valley Telecom",
    "380045" := "French Broad Electric",
    "130885" := "North Dakota Telephone Company (NDTC)",
    "130387" := "Dakota Central Telecommunications",
    "300188" := "Standing Rock Telecom",
    "170047" := "Frontier Communications (Ohio)",
    "130828" := "Farmers Mutual Telephone (MN)",
    "131409" := "Valley Telephone Cooperative (SD)",
    "130136" := "Bledsoe Telephone Cooperative (BTC Fiber)",
    "390044" := "Gibson Connect",
    "190015" := "Chester Telephone Company",
    "400100" := "Volunteer Wireless",
    "420028" := "Peoples Telephone Company",
    "390124" := "United Communications",
    "360029" := "Uniti Fiber",
    "130502" := "Five Area Telephone Cooperative",
    "130307" := "Coleman County Telephone Cooperative",
    "450052" := "DeWitt Telephone Company",
    "440203" := "XIT Communications",
    "130612" := "Hill Country Telephone Cooperative",
    "360006" := "Gvtc Communications",
    "190435" := "Citynet",
    "131245" := "Spruce Knob Seneca Rocks Telephone",
    "130275" := "Ketchikan Public Utilities",
    "460056" := "Empire Electric Association",
    "380132" := "Wabash Communications",
    "240056" := "Frontier Communications (IL)",
    "131180" := "Shawnee Telephone Company",
    "131032" := "New Lisbon Broadband",
    "420110" := "Ronan Telephone Company",
    "131129" := "Ronan Telephone Company",
    "520061" := "Montana Internet Corporation",
    "130874" := "Mud Lake Telephone Cooperative",
    "130743" := "Lincoln County Telephone System",
    "500082" := "AT&T Nevada",
    "370115" := "Consolidated Communications (NH)",
    "430011" := "Hunter Communications",
    "130427" := "Ozark Telephone Company",
    "490018" := "Florida Telephone Company",
    "140092" := "Elk River Telephone",
    "430033" := "Tombigbee Communications",
    "430030" := "East Mississippi Electric Power",
    "440099" := "Tishomingo Connect",
    "430028" := "Delta Telephone Company",
    "130106" := "Beehive Telephone Company",
    "370141" := "Wi-Fiber",
    "520035" := "CC Communications",
    "220079" := "Blue Mountain Networks",
    "130986" := "Oregon Telephone Corporation",
    "131026" := "Pencor Services",
    "131476" := "Wes-Tex Telephone Cooperative",
    "130610" := "Highland Telephone Cooperative",
    "130500" := "First Step Internet"
  ]
}
